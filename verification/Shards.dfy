/** Splitting a row budget into shards, and merging graph shards back into one dataset. */
module Shards {
  import opened Sequences
  import opened Strings
  import opened GraphModels
  import opened Topology

  /** `[start, count]` chunks covering `remaining` rows from `start`. */
  function Chunks(start: nat, remaining: nat, rows: nat): seq<(nat, nat)>
    requires rows > 0
    decreases remaining
  {
    if remaining == 0 then []
    else
      var count := if rows < remaining then rows else remaining;
      [(start, count)] + Chunks(start + count, remaining - count, rows)
  }

  /** The plan: an empty budget still yields one empty shard. */
  function Plan(target: int, rows: nat): seq<(nat, nat)>
    requires rows > 0
  {
    if target <= 0 then [(0, 0)] else Chunks(0, target, rows)
  }

  method PlanShards(target: int, rows: nat) returns (shards: seq<(nat, nat)>)
    requires rows > 0
    ensures shards == Plan(target, rows)
  {
    shards := [];
    var start, remaining := 0, target;
    while remaining > 0
      invariant start >= 0
      invariant target > 0 ==> remaining >= 0 && shards + Chunks(start, remaining, rows) == Chunks(0, target, rows)
      invariant target <= 0 ==> remaining == target && shards == []
    {
      var count := if rows < remaining then rows else remaining;
      ghost var rest := Chunks(start + count, remaining - count, rows);
      assert shards + ([(start, count)] + rest) == shards + [(start, count)] + rest;
      shards := shards + [(start, count)];
      start := start + count;
      remaining := remaining - count;
    }
    if shards == [] { shards := [(0, 0)]; }
  }

  /** The shards cover `[from, to)` contiguously with counts in `1..rows`, all but the last one full. */
  ghost predicate Tiles(shards: seq<(nat, nat)>, from: nat, to: nat, rows: nat) {
    && (|shards| == 0 <==> from == to)
    && (|shards| > 0 ==> shards[0].0 == from && shards[|shards| - 1].0 + shards[|shards| - 1].1 == to)
    && (forall i :: 0 <= i < |shards| ==> 1 <= shards[i].1 <= rows)
    && (forall i :: 0 <= i < |shards| - 1 ==> shards[i].1 == rows && shards[i + 1].0 == shards[i].0 + rows)
  }

  lemma {:induction false} ChunksTile(start: nat, remaining: nat, rows: nat)
    requires rows > 0
    ensures Tiles(Chunks(start, remaining, rows), start, start + remaining, rows)
    decreases remaining
  {
    if remaining > 0 {
      var count := if rows < remaining then rows else remaining;
      var rest := Chunks(start + count, remaining - count, rows);
      ChunksTile(start + count, remaining - count, rows);
      assert Chunks(start, remaining, rows) == [(start, count)] + rest;
      if |rest| == 0 { assert remaining == count; }
    }
  }

  /** A positive budget is tiled exactly. */
  lemma PlanTiles(target: int, rows: nat)
    requires rows > 0 && target > 0
    ensures Tiles(Plan(target, rows), 0, target, rows)
  {
    ChunksTile(0, target, rows);
  }

  /** Chunks end before later ones start. */
  lemma {:induction false} TilesOrdered(shards: seq<(nat, nat)>, from: nat, to: nat, rows: nat, i: nat, j: nat)
    requires Tiles(shards, from, to, rows) && i < j < |shards|
    ensures shards[i].0 + shards[i].1 <= shards[j].0
    decreases j
  {
    if i + 1 < j { TilesOrdered(shards, from, to, rows, i, j - 1); }
    assert shards[j - 1 + 1].0 == shards[j - 1].0 + rows;
  }

  /** Every chunk starts at a multiple of the shard size. */
  lemma {:induction false} TileStart(shards: seq<(nat, nat)>, total: nat, rows: nat, k: nat)
    requires rows > 0 && Tiles(shards, 0, total, rows) && k < |shards|
    ensures shards[k].0 == k * rows
  {
    if k > 0 {
      TileStart(shards, total, rows, k - 1);
      assert shards[k - 1 + 1].0 == shards[k - 1].0 + rows;
    }
  }

  // Merging

  function NodesOf(shards: seq<Dataset>, k: nat): seq<Node>
    requires k <= |shards|
  {
    if k == 0 then [] else NodesOf(shards, k - 1) + shards[k - 1].nodes
  }

  function EdgesOf(shards: seq<Dataset>, k: nat): seq<Edge>
    requires k <= |shards|
  {
    if k == 0 then [] else EdgesOf(shards, k - 1) + shards[k - 1].edges
  }

  /** `for x in items: d.setdefault(key(x), x)`, on a dictionary holding the first occurrences of `done`. */
  method SetDefaults<T(!new), K(==, !new)>(values: seq<T>, keys: set<K>, items: seq<T>, key: T -> K, ghost done: seq<T>)
    returns (values': seq<T>, keys': set<K>)
    requires values == FirstOccurrences(done, key) && keys == KeySet(done, key)
    ensures values' == FirstOccurrences(done + items, key) && keys' == KeySet(done + items, key)
  {
    values', keys' := values, keys;
    ghost var seen := done;
    assert seen == done + items[..0];
    for i := 0 to |items|
      invariant seen == done + items[..i]
      invariant values' == FirstOccurrences(seen, key) && keys' == KeySet(seen, key)
    {
      ghost var next := seen + [items[i]];
      assert next == done + items[..i + 1];
      assert next[..|seen|] == seen;
      KeySetLast(next, key);
      if key(items[i]) !in keys' {
        values' := values' + [items[i]];
        keys' := keys' + {key(items[i])};
      }
      seen := next;
    }
    assert done + items[..|items|] == done + items;
  }

  /** `GraphHandler.assemble`: the first shard's ontology, nodes first-seen by id, edges by signature. */
  method Assemble(shards: seq<Dataset>) returns (merged: Dataset)
    ensures merged.ontology == if |shards| == 0 then Ontology([], []) else shards[0].ontology
    ensures merged.nodes == FirstOccurrences(NodesOf(shards, |shards|), NodeId)
    ensures merged.edges == FirstOccurrences(EdgesOf(shards, |shards|), EdgeSignature)
  {
    hide FirstOccurrences, KeySet;
    var ontology: Option<Ontology> := None;
    var nodes: seq<Node>, nodeKeys := FirstOf([], NodeId);
    var edges: seq<Edge>, edgeKeys := FirstOf([], EdgeSignature);
    for i := 0 to |shards|
      invariant ontology == if i == 0 then None else Some(shards[0].ontology)
      invariant nodes == FirstOccurrences(NodesOf(shards, i), NodeId) && nodeKeys == KeySet(NodesOf(shards, i), NodeId)
      invariant edges == FirstOccurrences(EdgesOf(shards, i), EdgeSignature)
      invariant edgeKeys == KeySet(EdgesOf(shards, i), EdgeSignature)
    {
      if ontology.None? { ontology := Some(shards[i].ontology); }
      nodes, nodeKeys := SetDefaults(nodes, nodeKeys, shards[i].nodes, NodeId, NodesOf(shards, i));
      edges, edgeKeys := SetDefaults(edges, edgeKeys, shards[i].edges, EdgeSignature, EdgesOf(shards, i));
    }
    merged := Dataset(if ontology.Some? then ontology.value else Ontology([], []), nodes, edges);
  }

  /** An empty dictionary. */
  method FirstOf<T(!new), K(==, !new)>(ghost none: seq<T>, key: T -> K) returns (values: seq<T>, keys: set<K>)
    requires |none| == 0
    ensures values == FirstOccurrences(none, key) && keys == KeySet(none, key)
  {
    values, keys := [], {};
  }

  /** `n` occurs in the list with no earlier node under its id. */
  ghost predicate FirstOfItsId(nodes: seq<Node>, n: Node) {
    exists i :: 0 <= i < |nodes| && nodes[i] == n && NodeId(n) !in KeySet(nodes[..i], NodeId)
  }

  /** For any shards: ids and signatures are unique, and the first shard holding one wins. */
  lemma {:induction false} MergeKeepsFirst(shards: seq<Dataset>, merged: Dataset)
    requires merged.nodes == FirstOccurrences(NodesOf(shards, |shards|), NodeId)
    requires merged.edges == FirstOccurrences(EdgesOf(shards, |shards|), EdgeSignature)
    ensures UniqueIds(merged.nodes) && DistinctKeys(merged.edges, EdgeSignature)
    ensures KeySet(merged.nodes, NodeId) == KeySet(NodesOf(shards, |shards|), NodeId)
    ensures KeySet(merged.edges, EdgeSignature) == KeySet(EdgesOf(shards, |shards|), EdgeSignature)
    ensures forall n :: n in merged.nodes <==> FirstOfItsId(NodesOf(shards, |shards|), n)
  {
    hide FirstOccurrences, KeySet, NodesOf, EdgesOf;
    var all := NodesOf(shards, |shards|);
    FirstOccurrencesKeys(all, NodeId);
    FirstOccurrencesKeys(EdgesOf(shards, |shards|), EdgeSignature);
    forall n: Node ensures n in merged.nodes <==> FirstOfItsId(all, n) {
      FirstOccurrencesMember(all, NodeId, n);
    }
  }

  lemma {:induction false} ShardIds(shards: seq<Dataset>, k: nat, i: nat)
    requires i < k <= |shards|
    ensures KeySet(shards[i].nodes, NodeId) <= KeySet(NodesOf(shards, k), NodeId)
  {
    hide KeySet;
    KeySetAppend(NodesOf(shards, k - 1), shards[k - 1].nodes, NodeId);
    if i < k - 1 { ShardIds(shards, k - 1, i); }
  }

  lemma {:induction false} EdgeOrigin(shards: seq<Dataset>, k: nat, e: Edge) returns (i: nat)
    requires k <= |shards| && e in EdgesOf(shards, k)
    ensures i < k && e in shards[i].edges
  {
    if e in shards[k - 1].edges { i := k - 1; } else { i := EdgeOrigin(shards, k - 1, e); }
  }

  /** Closed shards merge into a closed graph: no edge dangles. */
  lemma {:induction false} MergeClosed(shards: seq<Dataset>, merged: Dataset)
    requires merged.nodes == FirstOccurrences(NodesOf(shards, |shards|), NodeId)
    requires merged.edges == FirstOccurrences(EdgesOf(shards, |shards|), EdgeSignature)
    requires forall i :: 0 <= i < |shards| ==> Closed(shards[i].nodes, shards[i].edges)
    ensures Closed(merged.nodes, merged.edges)
  {
    hide FirstOccurrences, KeySet, NodesOf, EdgesOf;
    MergeKeepsFirst(shards, merged);
    forall e | e in merged.edges ensures HasId(merged.nodes, e.source) && HasId(merged.nodes, e.target) {
      FirstOccurrencesMember(EdgesOf(shards, |shards|), EdgeSignature, e);
      var i := EdgeOrigin(shards, |shards|, e);
      ShardIds(shards, |shards|, i);
    }
  }

  // Disjoint union of procedural shards

  /** A node's id ends in the decimal rendering of its global index. */
  ghost predicate Numbered(nodes: seq<Node>, start: nat) {
    forall j :: 0 <= j < |nodes| ==> nodes[j].id == nodes[j].typ + ":" + Decimal(start + j)
  }

  /** A shard of the procedural engine, holding no more nodes than its budget. */
  ghost predicate ShardWithin(ds: Dataset, chunk: (nat, nat)) {
    && Numbered(ds.nodes, chunk.0) && |ds.nodes| <= chunk.1
    && Closed(ds.nodes, ds.edges) && DistinctKeys(ds.edges, EdgeSignature)
  }

  lemma NumbersDiffer(a: Node, m: nat, b: Node, n: nat)
    requires a.id == a.typ + ":" + Decimal(m) && b.id == b.typ + ":" + Decimal(n) && m != n
    ensures a.id != b.id
  {
    SameNumbered(a, m, b, n);
  }

  lemma NumberedUnique(nodes: seq<Node>, start: nat)
    requires Numbered(nodes, start)
    ensures UniqueIds(nodes)
  {
    forall i, j | 0 <= i < j < |nodes| ensures NodeId(nodes[i]) != NodeId(nodes[j]) {
      NumbersDiffer(nodes[i], start + i, nodes[j], start + j);
    }
  }

  lemma ShardsDisjoint(a: Dataset, ca: (nat, nat), b: Dataset, cb: (nat, nat))
    requires ShardWithin(a, ca) && ShardWithin(b, cb) && ca.0 + ca.1 <= cb.0
    ensures KeySet(a.nodes, NodeId) !! KeySet(b.nodes, NodeId)
    ensures KeySet(a.edges, EdgeSignature) !! KeySet(b.edges, EdgeSignature)
  {
    forall i, j | 0 <= i < |a.nodes| && 0 <= j < |b.nodes| ensures a.nodes[i].id != b.nodes[j].id {
      NumbersDiffer(a.nodes[i], ca.0 + i, b.nodes[j], cb.0 + j);
    }
    assert KeySet(a.nodes, NodeId) !! KeySet(b.nodes, NodeId);
    forall i, j | 0 <= i < |a.edges| && 0 <= j < |b.edges|
      ensures EdgeSignature(a.edges[i]) != EdgeSignature(b.edges[j])
    {
      assert HasId(a.nodes, a.edges[i].source) && HasId(b.nodes, b.edges[j].source);
    }
  }

  lemma DistinctAppend<T(!new), K(!new)>(xs: seq<T>, ys: seq<T>, key: T -> K)
    requires DistinctKeys(xs, key) && DistinctKeys(ys, key) && KeySet(xs, key) !! KeySet(ys, key)
    ensures DistinctKeys(xs + ys, key)
  {
    var all := xs + ys;
    forall i, j | 0 <= i < j < |all| ensures key(all[i]) != key(all[j]) {
      if i < |xs| <= j {
        assert key(xs[i]) in KeySet(xs, key) && key(ys[j - |xs|]) in KeySet(ys, key);
      }
    }
  }

  /** The union of the first `k` shards clashes with no later one. */
  lemma {:induction false} UnionDisjoint(shards: seq<Dataset>, plan: seq<(nat, nat)>, target: nat, rows: nat, k: nat,
                                         j: nat)
    requires |shards| == |plan| && Tiles(plan, 0, target, rows)
    requires forall i :: 0 <= i < |shards| ==> ShardWithin(shards[i], plan[i])
    requires k <= j < |shards|
    ensures KeySet(NodesOf(shards, k), NodeId) !! KeySet(shards[j].nodes, NodeId)
    ensures KeySet(EdgesOf(shards, k), EdgeSignature) !! KeySet(shards[j].edges, EdgeSignature)
  {
    hide ShardWithin, Tiles;
    if k == 0 {
      assert KeySet(NodesOf(shards, 0), NodeId) == {} && KeySet(EdgesOf(shards, 0), EdgeSignature) == {};
    } else {
      hide KeySet;
      UnionDisjoint(shards, plan, target, rows, k - 1, j);
      TilesOrdered(plan, 0, target, rows, k - 1, j);
      ShardsDisjoint(shards[k - 1], plan[k - 1], shards[j], plan[j]);
      KeySetAppend(NodesOf(shards, k - 1), shards[k - 1].nodes, NodeId);
      KeySetAppend(EdgesOf(shards, k - 1), shards[k - 1].edges, EdgeSignature);
    }
  }

  lemma {:induction false} UnionDistinct(shards: seq<Dataset>, plan: seq<(nat, nat)>, target: nat, rows: nat, k: nat)
    requires |shards| == |plan| && Tiles(plan, 0, target, rows) && k <= |shards|
    requires forall i :: 0 <= i < |shards| ==> ShardWithin(shards[i], plan[i])
    ensures UniqueIds(NodesOf(shards, k)) && DistinctKeys(EdgesOf(shards, k), EdgeSignature)
  {
    hide Tiles, KeySet;
    if k > 0 {
      UnionDistinct(shards, plan, target, rows, k - 1);
      UnionDisjoint(shards, plan, target, rows, k - 1, k - 1);
      NumberedUnique(shards[k - 1].nodes, plan[k - 1].0);
      DistinctAppend(NodesOf(shards, k - 1), shards[k - 1].nodes, NodeId);
      DistinctAppend(EdgesOf(shards, k - 1), shards[k - 1].edges, EdgeSignature);
    }
  }

  lemma {:induction false} UnionSize(shards: seq<Dataset>, plan: seq<(nat, nat)>, target: nat, rows: nat, k: nat)
    requires |shards| == |plan| && Tiles(plan, 0, target, rows) && 0 < k <= |shards|
    requires forall i :: 0 <= i < |shards| ==> |shards[i].nodes| == plan[i].1
    ensures |NodesOf(shards, k)| == plan[k - 1].0 + plan[k - 1].1
  {
    if k > 1 {
      UnionSize(shards, plan, target, rows, k - 1);
      assert plan[k - 2 + 1].0 == plan[k - 2].0 + rows;
    }
  }

  /**
   * Sharding is a disjoint union: when every shard keeps within its budget nothing is merged away,
   * and when every shard fills its budget the result has exactly `target` nodes.
   */
  lemma ShardingIsDisjointUnion(shards: seq<Dataset>, target: int, rows: nat, merged: Dataset)
    requires rows > 0 && target > 0 && |shards| == |Plan(target, rows)|
    requires forall i :: 0 <= i < |shards| ==> ShardWithin(shards[i], Plan(target, rows)[i])
    requires merged.nodes == FirstOccurrences(NodesOf(shards, |shards|), NodeId)
    requires merged.edges == FirstOccurrences(EdgesOf(shards, |shards|), EdgeSignature)
    ensures merged.nodes == NodesOf(shards, |shards|) && merged.edges == EdgesOf(shards, |shards|)
    ensures (forall i :: 0 <= i < |shards| ==> |shards[i].nodes| == Plan(target, rows)[i].1) ==>
              |merged.nodes| == target
  {
    hide FirstOccurrences, ShardWithin;
    var plan := Plan(target, rows);
    PlanTiles(target, rows);
    UnionDistinct(shards, plan, target, rows, |shards|);
    FirstOccurrencesOfDistinct(NodesOf(shards, |shards|), NodeId);
    FirstOccurrencesOfDistinct(EdgesOf(shards, |shards|), EdgeSignature);
    if forall i :: 0 <= i < |shards| ==> |shards[i].nodes| == plan[i].1 {
      UnionSize(shards, plan, target, rows, |shards|);
    }
  }

  lemma {:induction false} NodesOfAt(shards: seq<Dataset>, m: nat, k: nat, j: nat)
    requires k < m <= |shards| && j < |shards[k].nodes|
    ensures |NodesOf(shards, k)| + j < |NodesOf(shards, m)|
    ensures NodesOf(shards, m)[|NodesOf(shards, k)| + j] == shards[k].nodes[j]
  {
    if k < m - 1 { NodesOfAt(shards, m - 1, k, j); }
  }

  /** Where a node of the union comes from. */
  lemma {:induction false} NodeOrigin(shards: seq<Dataset>, m: nat, p: nat) returns (k: nat, j: nat)
    requires m <= |shards| && p < |NodesOf(shards, m)|
    ensures k < m && j < |shards[k].nodes| && shards[k].nodes[j] == NodesOf(shards, m)[p]
    ensures p == |NodesOf(shards, k)| + j
  {
    var before := NodesOf(shards, m - 1);
    if p < |before| {
      k, j := NodeOrigin(shards, m - 1, p);
    } else {
      k, j := m - 1, p - |before|;
    }
  }

  /** Nodes of two shards that stand at the same global index and have the same type. */
  ghost predicate Clash(shards: seq<Dataset>, starts: seq<nat>, k: nat, i: nat, l: nat, j: nat)
    requires |starts| == |shards|
  {
    && k < l < |shards| && i < |shards[k].nodes| && j < |shards[l].nodes|
    && starts[k] + i == starts[l] + j
    && shards[k].nodes[i].typ == shards[l].nodes[j].typ
  }

  lemma SameNumbered(a: Node, m: nat, b: Node, n: nat)
    requires a.id == a.typ + ":" + Decimal(m) && b.id == b.typ + ":" + Decimal(n)
    ensures a.id == b.id <==> a.typ == b.typ && m == n
  {
    DecimalRoundTrip(m);
    DecimalRoundTrip(n);
    if a.id == b.id { LastColonSplits(a.typ, Decimal(m), b.typ, Decimal(n)); }
  }

  lemma ClashRepeatsId(shards: seq<Dataset>, starts: seq<nat>, k: nat, i: nat, l: nat, j: nat)
    requires |starts| == |shards| && forall m :: 0 <= m < |shards| ==> Numbered(shards[m].nodes, starts[m])
    requires Clash(shards, starts, k, i, l, j)
    ensures |FirstOccurrences(NodesOf(shards, |shards|), NodeId)| < |NodesOf(shards, |shards|)|
  {
    hide FirstOccurrences, Decimal;
    SameNumbered(shards[k].nodes[i], starts[k] + i, shards[l].nodes[j], starts[l] + j);
    NodesOfAt(shards, l, k, i);
    NodesOfAt(shards, |shards|, k, i);
    NodesOfAt(shards, |shards|, l, j);
    FirstOccurrencesShrinks(NodesOf(shards, |shards|), NodeId, |NodesOf(shards, k)| + i, |NodesOf(shards, l)| + j);
  }

  lemma RepeatedIdClashes(shards: seq<Dataset>, starts: seq<nat>) returns (k: nat, i: nat, l: nat, j: nat)
    requires |starts| == |shards| && forall m :: 0 <= m < |shards| ==> Numbered(shards[m].nodes, starts[m])
    requires !UniqueIds(NodesOf(shards, |shards|))
    ensures Clash(shards, starts, k, i, l, j)
  {
    hide NodesOf, Decimal;
    var nodes := NodesOf(shards, |shards|);
    var p, q :| 0 <= p < q < |nodes| && NodeId(nodes[p]) == NodeId(nodes[q]);
    k, i := NodeOrigin(shards, |shards|, p);
    l, j := NodeOrigin(shards, |shards|, q);
    assert Numbered(shards[k].nodes, starts[k]) && Numbered(shards[l].nodes, starts[l]);
    SameNumbered(shards[k].nodes[i], starts[k] + i, shards[l].nodes[j], starts[l] + j);
    if l < k {
      k, i, l, j := l, j, k, i;
    }
  }

  /**
   * The merge loses nodes exactly when two shards number nodes of one type alike, as they can when a shard overruns
   * its budget.
   */
  lemma {:induction false} OverrunMerges(shards: seq<Dataset>, starts: seq<nat>, merged: Dataset)
    requires |starts| == |shards| && forall m :: 0 <= m < |shards| ==> Numbered(shards[m].nodes, starts[m])
    requires merged.nodes == FirstOccurrences(NodesOf(shards, |shards|), NodeId)
    ensures |merged.nodes| < |NodesOf(shards, |shards|)| <==> exists k, i, l, j :: Clash(shards, starts, k, i, l, j)
  {
    hide FirstOccurrences, Clash, Numbered, NodesOf;
    if UniqueIds(NodesOf(shards, |shards|)) {
      FirstOccurrencesOfDistinct(NodesOf(shards, |shards|), NodeId);
      if k, i, l, j :| Clash(shards, starts, k, i, l, j) {
        ClashRepeatsId(shards, starts, k, i, l, j);
      }
    } else {
      var k, i, l, j := RepeatedIdClashes(shards, starts);
      ClashRepeatsId(shards, starts, k, i, l, j);
    }
  }

  lemma {:induction false} FirstOccurrencesShrinks<T(!new), K(!new)>(xs: seq<T>, key: T -> K, i: nat, j: nat)
    requires i < j < |xs| && key(xs[i]) == key(xs[j])
    ensures |FirstOccurrences(xs, key)| < |xs|
  {
    var n := |xs| - 1;
    var front := xs[..n];
    if j == n {
      assert front[i] == xs[i];
      assert key(xs[n]) in KeySet(front, key);
      FirstOccurrencesLength(front, key);
    } else {
      FirstOccurrencesShrinks(front, key, i, j);
    }
  }

  lemma {:induction false} FirstOccurrencesLength<T(!new), K(!new)>(xs: seq<T>, key: T -> K)
    ensures |FirstOccurrences(xs, key)| <= |xs|
  {
    if |xs| > 0 { FirstOccurrencesLength(xs[..|xs| - 1], key); }
  }
}

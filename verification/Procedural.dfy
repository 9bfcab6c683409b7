/** `ProceduralTopologyGenerator.generate` around the abstract graph: block sizes, node types and ids. */
module Procedural {
  import opened Sequences
  import opened Strings
  import opened Arithmetic
  import opened GraphModels
  import opened Topology
  import opened Shards

  // Block sizes

  /** `divmod` split: the first `extra` of `b` blocks take one more. */
  function EvenSplit(base: nat, extra: nat, b: nat): seq<nat> {
    if b == 0 then [] else EvenSplit(base, extra, b - 1) + [base + (if b - 1 < extra then 1 else 0)]
  }

  function BlockCount(nBlocks: int, n: nat): nat
    requires n >= 1
  {
    if nBlocks < 1 then 1 else if nBlocks > n then n else nBlocks
  }

  /** `_sbm_sizes`: an explicit list of positive sizes is taken as it is, otherwise `n` is split evenly. */
  function BlockSizes(explicit: seq<int>, nBlocks: int, n: nat): seq<int>
    requires n >= 1
  {
    if explicit != [] && forall x :: x in explicit ==> x > 0 then explicit
    else EvenSplit(n / BlockCount(nBlocks, n), n % BlockCount(nBlocks, n), BlockCount(nBlocks, n))
  }

  lemma {:induction false} EvenSplitTotal(base: nat, extra: nat, b: nat)
    ensures |EvenSplit(base, extra, b)| == b
    ensures Sum(EvenSplit(base, extra, b), b) == base * b + (if b < extra then b else extra)
    ensures forall i :: 0 <= i < b ==> base <= EvenSplit(base, extra, b)[i] <= base + 1
  {
    if b > 0 {
      EvenSplitTotal(base, extra, b - 1);
      SumPush(EvenSplit(base, extra, b - 1), base + (if b - 1 < extra then 1 else 0));
      hide Sum;
      assert base * b == base * (b - 1) + base;
    }
  }

  /** Without an explicit list the blocks differ by at most one, are never empty, and use up the node budget. */
  lemma DefaultBlocksKeepBudget(nBlocks: int, n: nat)
    requires n >= 1
    ensures var b := BlockCount(nBlocks, n); var sizes := EvenSplit(n / b, n % b, b);
      && BlockSizes([], nBlocks, n) == sizes
      && Sum(sizes, |sizes|) == n
      && forall i :: 0 <= i < |sizes| ==> 1 <= n / b <= sizes[i] <= n / b + 1
    ensures 1 <= nBlocks <= n ==> |BlockSizes([], nBlocks, n)| == nBlocks
    ensures nBlocks < 1 ==> |BlockSizes([], nBlocks, n)| == 1
    ensures nBlocks > n ==> |BlockSizes([], nBlocks, n)| == n
  {
    var b := BlockCount(nBlocks, n);
    var base, extra := n / b, n % b;
    Parts(n, b);
    EvenSplitTotal(base, extra, b);
    hide Sum, EvenSplit;
    assert BlockSizes([], nBlocks, n) == EvenSplit(base, extra, b);
  }

  /** An explicit list is taken exactly when it is not empty and all its sizes are positive. */
  lemma ExplicitTaken(explicit: seq<int>, nBlocks: int, n: nat)
    requires n >= 1
    ensures |explicit| > 0 && (forall i :: 0 <= i < |explicit| ==> explicit[i] >= 1)
            ==> BlockSizes(explicit, nBlocks, n) == explicit
    ensures (exists i :: 0 <= i < |explicit| && explicit[i] < 1)
            ==> BlockSizes(explicit, nBlocks, n) == BlockSizes([], nBlocks, n)
  {
    hide EvenSplit, BlockCount;
    if i :| 0 <= i < |explicit| && explicit[i] < 1 { assert explicit[i] in explicit; }
  }

  function Starts(plan: seq<(nat, nat)>): (starts: seq<nat>)
    ensures |starts| == |plan| && forall k :: 0 <= k < |plan| ==> starts[k] == plan[k].0
  {
    seq(|plan|, k requires 0 <= k < |plan| => plan[k].0)
  }

  /**
   * Shards that all take one explicit block list, over an ontology with one node type: several of them lose nodes in
   * the merge exactly when the blocks add up to more than the shard size.
   */
  lemma {:induction false} ExplicitBlocksLoseNodes(explicit: seq<int>, nBlocks: int, target: int, rows: nat,
                                                   typ: string,
                                                   shards: seq<Dataset>, merged: Dataset)
    requires rows > 0 && target > rows && explicit != [] && forall x :: x in explicit ==> x > 0
    requires |shards| == |Plan(target, rows)|
    requires forall k :: 0 <= k < |shards| ==>
               && Numbered(shards[k].nodes, Plan(target, rows)[k].0)
               && (forall n :: n in shards[k].nodes ==> n.typ == typ)
               && |shards[k].nodes| == Sum(BlockSizes(explicit, nBlocks, rows), |BlockSizes(explicit, nBlocks, rows)|)
    requires merged.nodes == FirstOccurrences(NodesOf(shards, |shards|), NodeId)
    ensures |merged.nodes| < |NodesOf(shards, |shards|)| <==> Sum(explicit, |explicit|) > rows
  {
    hide FirstOccurrences, NodesOf, Numbered, Sum, Chunks;
    var plan := Plan(target, rows);
    var starts := Starts(plan);
    var total := Sum(explicit, |explicit|);
    PlanTiles(target, rows);
    OverrunMerges(shards, starts, merged);
    SeveralShards(target, rows);
    if total > rows {
      TileStart(plan, target, rows, 1);
      assert Clash(shards, starts, 0, rows, 1, 0);
    }
    if k, i, l, j :| Clash(shards, starts, k, i, l, j) {
      TileStart(plan, target, rows, k);
      TileStart(plan, target, rows, l);
      Apart(k, l, rows);
    }
  }

  lemma SeveralShards(target: int, rows: nat)
    requires rows > 0 && target > rows
    ensures |Plan(target, rows)| >= 2
  {
    assert Plan(target, rows) == [(0, rows)] + Chunks(rows, target - rows, rows);
    ChunksTile(rows, target - rows, rows);
  }

  lemma Apart(k: nat, l: nat, rows: nat)
    requires k < l
    ensures l * rows >= k * rows + rows
  {
    assert (l - k) * rows == l * rows - k * rows;
    Stretch(l - k, rows);
  }

  /** For instance one block of two nodes, in shards of one row each. */
  lemma PairInOneRowShards(pair: seq<int>, nBlocks: int, target: int, rows: nat, typ: string,
                           shards: seq<Dataset>, merged: Dataset)
    requires |pair| == 1 && pair[0] == 2 && rows == 1 && target > rows
    requires |shards| == |Plan(target, rows)|
    requires forall k :: 0 <= k < |shards| ==>
               && Numbered(shards[k].nodes, Plan(target, rows)[k].0)
               && (forall n :: n in shards[k].nodes ==> n.typ == typ)
               && |shards[k].nodes| == 2
    requires merged.nodes == FirstOccurrences(NodesOf(shards, |shards|), NodeId)
    ensures BlockSizes(pair, nBlocks, rows) == pair
    ensures |merged.nodes| < |NodesOf(shards, |shards|)|
  {
    hide FirstOccurrences, NodesOf, Numbered, Chunks;
    assert Sum(pair, 1) == 2 by { assert Sum(pair, 0) == 0; }
    ExplicitBlocksLoseNodes(pair, nBlocks, target, rows, typ, shards, merged);
  }

  // Node types

  /** The rank of a community id among the distinct ids present. */
  ghost function Rank(communities: seq<nat>, c: nat): nat {
    |set d | d in communities && d < c|
  }

  /** `assign_node_types`: round-robin over communities when there are any, over vertices otherwise. */
  ghost function AssignedTypes(n: nat, types: seq<NodeType>, communities: Option<seq<nat>>): (r: seq<string>)
    requires |types| > 0 && (communities.Some? ==> |communities.value| == n)
    ensures |r| == n
    ensures forall i :: 0 <= i < n ==> exists t :: t in types && t.name == r[i]
  {
    var turn := (i: nat) requires i < n =>
      if communities.Some? then Rank(communities.value, communities.value[i]) else i;
    var r := seq(n, i requires 0 <= i < n => types[turn(i) % |types|].name);
    assert forall i :: 0 <= i < n ==> types[turn(i) % |types|] in types && types[turn(i) % |types|].name == r[i];
    r
  }

  lemma AssignedInTurn(n: nat, types: seq<NodeType>, i: nat)
    requires |types| > 0 && i < n
    ensures AssignedTypes(n, types, None)[i] == types[i % |types|].name
  {
  }

  lemma Wraps(i: nat, k: nat)
    requires k > 0
    ensures i < k ==> i % k == i
    ensures i >= k ==> i % k == (i - k) % k
  {
    if i >= k {
      var q, r := i / k, i % k;
      assert (q - 1) * k + r == i - k;
      DivMod(q - 1, r, k);
    }
  }

  /** Without communities the declared types follow one another, round and round. */
  lemma RoundRobin(n: nat, types: seq<NodeType>, i: nat)
    requires |types| > 0 && i < n
    ensures var r := AssignedTypes(n, types, None);
            && (i < |types| ==> r[i] == types[i].name)
            && (i >= |types| ==> r[i] == r[i - |types|])
  {
    Wraps(i, |types|);
    AssignedInTurn(n, types, i);
    if i >= |types| { AssignedInTurn(n, types, i - |types|); }
    hide AssignedTypes;
  }

  ghost function Present(communities: seq<nat>): set<nat> { set c | c in communities }

  lemma RankBelow(communities: seq<nat>, c: nat, d: nat)
    requires c in communities && d in communities && c < d
    ensures Rank(communities, c) < Rank(communities, d)
    ensures Rank(communities, d) < |Present(communities)|
  {
    var all := Present(communities);
    var upTo := set e | e in communities && e < d;
    var below := set e | e in communities && e < c;
    assert below <= upTo - {c} && upTo <= all - {d} && c in upTo && d in all;
    SmallerSet(below, upTo - {c});
    SmallerSet(upTo, all - {d});
    assert Rank(communities, c) == |below| && Rank(communities, d) == |upTo|;
  }

  /**
   * One community is one type; and with no more communities than node types, under distinct names, different
   * communities are different types.
   */
  lemma {:induction false} CommunitiesTyped(n: nat, types: seq<NodeType>, communities: seq<nat>, i: nat, j: nat)
    requires |types| > 0 && |communities| == n && i < n && j < n
    ensures var r := AssignedTypes(n, types, Some(communities));
            && (communities[i] == communities[j] ==> r[i] == r[j])
            && (DistinctKeys(types, NodeTypeNameOf) && |Present(communities)| <= |types| ==>
                  (r[i] == r[j] <==> communities[i] == communities[j]))
  {
    var c, d := communities[i], communities[j];
    AssignedByRank(n, types, communities, i);
    AssignedByRank(n, types, communities, j);
    hide AssignedTypes, DistinctKeys;
    if c < d {
      RankBelow(communities, c, d);
    } else if d < c {
      RankBelow(communities, d, c);
    }
    hide Rank;
    if DistinctKeys(types, NodeTypeNameOf) && |Present(communities)| <= |types| && c != d {
      DifferentTypes(types, Rank(communities, c), Rank(communities, d));
    }
  }

  lemma AssignedByRank(n: nat, types: seq<NodeType>, communities: seq<nat>, i: nat)
    requires |types| > 0 && |communities| == n && i < n
    ensures AssignedTypes(n, types, Some(communities))[i] == types[Rank(communities, communities[i]) % |types|].name
  {
    hide Rank;
  }

  lemma DifferentTypes(types: seq<NodeType>, a: nat, b: nat)
    requires DistinctKeys(types, NodeTypeNameOf) && a < |types| && b < |types| && a != b
    ensures a % |types| == a && b % |types| == b && types[a].name != types[b].name
  {
    assert a < b ==> NodeTypeNameOf(types[a]) != NodeTypeNameOf(types[b]);
    assert b < a ==> NodeTypeNameOf(types[b]) != NodeTypeNameOf(types[a]);
  }

  // One shard

  method MintNodes(typeOf: seq<string>, start: nat, props: nat -> Properties)
    returns (ids: seq<string>, nodes: seq<Node>)
    ensures Vertices(nodes, ids, typeOf) && Numbered(nodes, start)
  {
    hide Decimal;
    ids, nodes := [], [];
    for i := 0 to |typeOf|
      invariant |ids| == |nodes| == i
      invariant forall k :: 0 <= k < i ==>
                  ids[k] == nodes[k].id == typeOf[k] + ":" + Decimal(start + k) && nodes[k].typ == typeOf[k]
    {
      var id := typeOf[i] + ":" + Decimal(start + i);
      ids := ids + [id];
      nodes := nodes + [Node(id, typeOf[i], props(i))];
    }
  }

  /** One shard from an abstract graph over vertices `0..|typeOf|`, numbering its nodes from `start`. */
  method GenerateShard(ont: Ontology, typeOf: seq<string>, start: nat, graph: seq<(nat, nat)>, props: nat -> Properties)
    returns (ds: Dataset, dropped: nat)
    requires InRange(graph, |typeOf|) && Simple(graph)
    ensures ds.ontology == ont && |ds.nodes| == |typeOf|
    ensures forall i :: 0 <= i < |typeOf| ==> ds.nodes[i].typ == typeOf[i]
    ensures |ds.edges| + dropped == |graph|
    ensures forall chunk: (nat, nat) :: chunk.0 == start && |typeOf| <= chunk.1 ==> ShardWithin(ds, chunk)
    ensures Validator.EdgeFindings(ont, TypesById(ds.nodes), ds.edges, |ds.edges|) == [] <==>
            ReadsGraph(ont, typeOf, graph)
  {
    hide Projected, Placements, Validator.EdgeFindings, Decimal, TypesById, DistinctKeys, Simple, Numbered, ShardWithin,
         Misread;
    var ids, nodes := MintNodes(typeOf, start, props);
    var edges: seq<Edge>;
    edges, dropped := MapEdges(graph, ids, typeOf, ont);
    ds := Dataset(ont, nodes, edges);
    ShardIsSound(ds, ids, typeOf, start, graph, dropped);
  }

  lemma ShardIsSound(ds: Dataset, ids: seq<string>, typeOf: seq<string>, start: nat, graph: seq<(nat, nat)>,
                     dropped: nat)
    requires InRange(graph, |typeOf|) && Simple(graph)
    requires Vertices(ds.nodes, ids, typeOf) && Numbered(ds.nodes, start)
    requires Projected(ds.edges, ds.ontology.edgeTypes, ids, typeOf, graph)
    requires |Placements(ds.ontology.edgeTypes, ids, typeOf, graph, |graph|)| + dropped == |graph|
    ensures |ds.edges| + dropped == |graph|
    ensures forall chunk: (nat, nat) :: chunk.0 == start && |typeOf| <= chunk.1 ==> ShardWithin(ds, chunk)
    ensures Validator.EdgeFindings(ds.ontology, TypesById(ds.nodes), ds.edges, |ds.edges|) == [] <==>
            ReadsGraph(ds.ontology, typeOf, graph)
  {
    hide Projected, Placements, Validator.EdgeFindings, Decimal, TypesById, Place, FirstOccurrences, Misread;
    NumberedUnique(ds.nodes, start);
    assert NoDuplicates(ids) by {
      forall i, j | 0 <= i < j < |ids| ensures ids[i] != ids[j] {
        assert NodeId(ds.nodes[i]) != NodeId(ds.nodes[j]);
      }
    }
    EmittedPlusDropped(ds.edges, dropped, ds.ontology.edgeTypes, ids, typeOf, graph);
    forall e | e in ds.edges ensures HasId(ds.nodes, e.source) && HasId(ds.nodes, e.target) {
      var j :| 0 <= j < |ds.edges| && ds.edges[j] == e;
      var i := OriginOf(ds.ontology.edgeTypes, ids, typeOf, graph, ds.edges, j);
      var p := Place(ds.ontology.edgeTypes, typeOf, graph[i].0, graph[i].1).value;
      assert EdgeSignature(e) == PlacedSignature(p, ids);
      assert NodeId(ds.nodes[p.s]) == e.source && NodeId(ds.nodes[p.t]) == e.target;
    }
    ProjectionPassesIff(ds.ontology, ds.nodes, ids, typeOf, graph, ds.edges);
  }
}

/** Dropping nodes and edges, and cleaning up the edges left dangling. */
module Dropout {
  import opened Sequences
  import opened Strings
  import opened GraphModels
  import opened Selection
  import opened Rewiring

  /** `[x for i, x in enumerate(xs) if i not in drop]`, over the first `k` elements. */
  function Undropped<T>(xs: seq<T>, drop: set<nat>, k: nat): seq<T>
    requires k <= |xs|
  {
    if k == 0 then [] else Undropped(xs, drop, k - 1) + (if k - 1 in drop then [] else [xs[k - 1]])
  }

  predicate DropsNodes(target: string) { Lower(target) == "nodes" || Lower(target) == "both" }

  predicate DropsEdges(target: string) { Lower(target) == "edges" || Lower(target) == "both" }

  function NodesLeft(nodes: seq<Node>, target: string, chosen: seq<nat>): seq<Node>
    requires forall i :: 0 <= i < |chosen| ==> chosen[i] < |nodes|
  {
    if DropsNodes(target) then Undropped(nodes, Selected(NodeIds(nodes), chosen), |nodes|) else nodes
  }

  /** The edges after the node stage. */
  function EdgesJoined(nodes: seq<Node>, edges: seq<Edge>, target: string, chosen: seq<nat>): seq<Edge>
    requires forall i :: 0 <= i < |chosen| ==> chosen[i] < |nodes|
  {
    if DropsNodes(target) then
      var left := NodesLeft(nodes, target, chosen);
      Joined(edges, set n | n in left :: n.id, |edges|)
    else edges
  }

  /** The draws `_dropout` makes: one over the nodes, one over the edges that remain by then. */
  ghost predicate LegalDraws(nodes: seq<Node>, edges: seq<Edge>, intensity: real, target: string, chosen: seq<nat>,
                             chosenEdges: seq<nat>) {
    && LegalChoice(chosen, Affected(intensity, |nodes|), |nodes|)
    && var left := EdgesJoined(nodes, edges, target, chosen);
       LegalChoice(chosenEdges, Affected(intensity, |left|), |left|)
  }

  function EdgesLeft(nodes: seq<Node>, edges: seq<Edge>, target: string, chosen: seq<nat>,
                     chosenEdges: seq<nat>): seq<Edge>
    requires forall i :: 0 <= i < |chosen| ==> chosen[i] < |nodes|
    requires forall i :: 0 <= i < |chosenEdges| ==> chosenEdges[i] < |EdgesJoined(nodes, edges, target, chosen)|
  {
    var joined := EdgesJoined(nodes, edges, target, chosen);
    if DropsEdges(target) then Undropped(joined, Selected(Ids(joined), chosenEdges), |joined|) else joined
  }

  // Order and size

  ghost predicate Subsequence<T(!new)>(xs: seq<T>, ys: seq<T>)
    decreases |ys|
  {
    |xs| == 0 || (|ys| > 0 &&
      (Subsequence(xs, ys[..|ys| - 1]) ||
       (xs[|xs| - 1] == ys[|ys| - 1] && Subsequence(xs[..|xs| - 1], ys[..|ys| - 1]))))
  }

  lemma Extends<T(!new)>(xs: seq<T>, ys: seq<T>, y: T)
    requires Subsequence(xs, ys)
    ensures Subsequence(xs, ys + [y]) && Subsequence(xs + [y], ys + [y])
  {
    assert (ys + [y])[..|ys|] == ys && (xs + [y])[..|xs|] == xs;
  }

  lemma NothingIsSubsequence<T(!new)>(ys: seq<T>)
    ensures Subsequence([], ys)
  {
  }

  lemma {:induction false} UndroppedKeepsOrder<T(!new)>(xs: seq<T>, drop: set<nat>, k: nat)
    requires k <= |xs|
    ensures Subsequence(Undropped(xs, drop, k), xs[..k])
  {
    hide Subsequence;
    if k == 0 {
      NothingIsSubsequence(xs[..0]);
    } else {
      UndroppedKeepsOrder(xs, drop, k - 1);
      Extends(Undropped(xs, drop, k - 1), xs[..k - 1], xs[k - 1]);
      assert xs[..k] == xs[..k - 1] + [xs[k - 1]];
      assert k - 1 in drop ==> Undropped(xs, drop, k) == Undropped(xs, drop, k - 1);
    }
  }

  lemma {:induction false} UndroppedSize<T>(xs: seq<T>, drop: set<nat>, k: nat)
    requires k <= |xs|
    ensures |Undropped(xs, drop, k)| == k - |set i | i in drop && i < k|
  {
    if k > 0 {
      UndroppedSize(xs, drop, k - 1);
      var below := set i | i in drop && i < k - 1;
      var upTo := set i | i in drop && i < k;
      assert upTo == if k - 1 in drop then below + {k - 1} else below;
    } else {
      assert (set i | i in drop && i < k) == {};
    }
  }

  lemma DropsExactly<T(!new)>(xs: seq<T>, ids: seq<string>, chosen: seq<nat>, intensity: real)
    requires |ids| == |xs| && LegalChoice(chosen, Affected(intensity, |xs|), |xs|)
    ensures |Undropped(xs, Selected(ids, chosen), |xs|)| == |xs| - Affected(intensity, |xs|)
    ensures Subsequence(Undropped(xs, Selected(ids, chosen), |xs|), xs)
  {
    hide Selected, Undropped;
    var drop := Selected(ids, chosen);
    SelectedSize(ids, chosen);
    UndroppedSize(xs, drop, |xs|);
    assert (set i | i in drop && i < |xs|) == drop;
    UndroppedKeepsOrder(xs, drop, |xs|);
    assert xs[..|xs|] == xs;
  }

  lemma {:induction false} JoinedKeepsOrder(edges: seq<Edge>, kept: set<string>, k: nat)
    requires k <= |edges|
    ensures Subsequence(Joined(edges, kept, k), edges[..k])
  {
    if k > 0 {
      JoinedKeepsOrder(edges, kept, k - 1);
      Extends(Joined(edges, kept, k - 1), edges[..k - 1], edges[k - 1]);
      hide Subsequence;
      assert edges[..k] == edges[..k - 1] + [edges[k - 1]];
      if !(edges[k - 1].source in kept && edges[k - 1].target in kept) {
        assert Joined(edges, kept, k) == Joined(edges, kept, k - 1);
      }
    }
  }

  /** Nothing is filtered out exactly when every edge has both endpoints. */
  lemma {:induction false} JoinedAll(edges: seq<Edge>, kept: set<string>, k: nat)
    requires k <= |edges|
    ensures |Joined(edges, kept, k)| <= k
    ensures |Joined(edges, kept, k)| == k <==>
            forall i :: 0 <= i < k ==> edges[i].source in kept && edges[i].target in kept
    ensures |Joined(edges, kept, k)| == k ==> forall i :: 0 <= i < k ==> Joined(edges, kept, k)[i] == edges[i]
  {
    if k > 0 { JoinedAll(edges, kept, k - 1); }
  }

  lemma KeptIds(nodes: seq<Node>)
    ensures (set n | n in nodes :: n.id) == KeySet(nodes, NodeId)
  {
    forall n | n in nodes ensures n.id in KeySet(nodes, NodeId) {
      var i :| 0 <= i < |nodes| && nodes[i] == n;
      assert NodeId(nodes[i]) == n.id;
    }
  }

  /**
   * Node dropout removes exactly the affected number of nodes and keeps, in order, exactly the edges
   * of the subgraph those nodes induce; edge dropout then removes the affected number of what is left.
   */
  lemma DropoutInduced(nodes: seq<Node>, edges: seq<Edge>, intensity: real, target: string, chosen: seq<nat>,
                       chosenEdges: seq<nat>)
    requires LegalDraws(nodes, edges, intensity, target, chosen, chosenEdges)
    ensures var left, joined := NodesLeft(nodes, target, chosen), EdgesJoined(nodes, edges, target, chosen);
      && Subsequence(left, nodes)
      && |left| == |nodes| - (if DropsNodes(target) then Affected(intensity, |nodes|) else 0)
      && Subsequence(joined, edges)
      && (DropsNodes(target) ==>
            && (forall e :: e in joined <==> e in edges && HasId(left, e.source) && HasId(left, e.target))
            && Closed(left, joined))
      && var out := EdgesLeft(nodes, edges, target, chosen, chosenEdges);
         && Subsequence(out, joined)
         && |out| == |joined| - (if DropsEdges(target) then Affected(intensity, |joined|) else 0)
  {
    hide Selected, Undropped, Joined, DropsNodes, DropsEdges, KeySet;
    var left, joined := NodesLeft(nodes, target, chosen), EdgesJoined(nodes, edges, target, chosen);
    SubsequenceOfItself(nodes);
    SubsequenceOfItself(edges);
    SubsequenceOfItself(joined);
    if DropsNodes(target) {
      DropsExactly(nodes, NodeIds(nodes), chosen, intensity);
      var kept := set n | n in left :: n.id;
      KeptIds(left);
      JoinedKeepsOrder(edges, kept, |edges|);
      assert edges[..|edges|] == edges;
      forall e ensures e in joined <==> e in edges && HasId(left, e.source) && HasId(left, e.target) {
        JoinedMember(edges, kept, |edges|, e);
      }
    }
    if DropsEdges(target) {
      DropsExactly(joined, Ids(joined), chosenEdges, intensity);
    }
  }

  /** For an intensity in [0, 1] what is removed is the intensity's share of the list, rounded. */
  lemma {:induction false} DropoutShare(nodes: seq<Node>, edges: seq<Edge>, intensity: real, target: string,
                                        chosen: seq<nat>, chosenEdges: seq<nat>)
    requires LegalDraws(nodes, edges, intensity, target, chosen, chosenEdges) && 0.0 <= intensity <= 1.0
    ensures DropsNodes(target) ==> Rounds(|nodes| - |NodesLeft(nodes, target, chosen)|, intensity * |nodes| as real)
    ensures var joined := EdgesJoined(nodes, edges, target, chosen);
            DropsEdges(target) ==>
              Rounds(|joined| - |EdgesLeft(nodes, edges, target, chosen, chosenEdges)|, intensity * |joined| as real)
  {
    hide Selected, Undropped, Joined, DropsNodes, DropsEdges, Rounds, EdgesLeft, NodesLeft, EdgesJoined;
    DropoutInduced(nodes, edges, intensity, target, chosen, chosenEdges);
  }

  /**
   * The target text, in any case: "nodes" keeps every edge of the induced subgraph, "edges" keeps every node and joins
   * nothing, and a text that is neither of them nor "both" changes nothing.
   */
  lemma TargetText(nodes: seq<Node>, edges: seq<Edge>, intensity: real, target: string, chosen: seq<nat>,
                   chosenEdges: seq<nat>)
    requires LegalDraws(nodes, edges, intensity, target, chosen, chosenEdges)
    ensures Lower(target) == "nodes" ==>
              && |NodesLeft(nodes, target, chosen)| == |nodes| - Affected(intensity, |nodes|)
              && EdgesLeft(nodes, edges, target, chosen, chosenEdges) == EdgesJoined(nodes, edges, target, chosen)
    ensures Lower(target) == "edges" ==>
              && NodesLeft(nodes, target, chosen) == nodes
              && |EdgesLeft(nodes, edges, target, chosen, chosenEdges)| == |edges| - Affected(intensity, |edges|)
    ensures Lower(target) == "both" ==>
              var joined := EdgesJoined(nodes, edges, target, chosen);
              && |NodesLeft(nodes, target, chosen)| == |nodes| - Affected(intensity, |nodes|)
              && |EdgesLeft(nodes, edges, target, chosen, chosenEdges)| == |joined| - Affected(intensity, |joined|)
    ensures Lower(target) !in ["nodes", "edges", "both"] ==>
              && NodesLeft(nodes, target, chosen) == nodes
              && EdgesLeft(nodes, edges, target, chosen, chosenEdges) == edges
  {
    hide Selected, Undropped, Joined, Lower;
    DropoutInduced(nodes, edges, intensity, target, chosen, chosenEdges);
  }

  lemma {:induction false} SubsequenceOfItself<T(!new)>(xs: seq<T>)
    ensures Subsequence(xs, xs)
  {
    if |xs| > 0 { SubsequenceOfItself(xs[..|xs| - 1]); }
  }

  lemma {:induction false} NothingDropped<T>(xs: seq<T>, k: nat)
    requires k <= |xs|
    ensures Undropped(xs, {}, k) == xs[..k]
  {
    if k > 0 { NothingDropped(xs, k - 1); }
  }

  /**
   * The documentation calls intensity 0 an exact no-op. That holds when only edges are targeted, and
   * for node dropout exactly when the input has no dangling edge to begin with.
   */
  lemma ZeroIntensityIff(nodes: seq<Node>, edges: seq<Edge>, target: string, chosen: seq<nat>, chosenEdges: seq<nat>)
    requires LegalDraws(nodes, edges, 0.0, target, chosen, chosenEdges)
    ensures NodesLeft(nodes, target, chosen) == nodes
    ensures EdgesLeft(nodes, edges, target, chosen, chosenEdges) == edges <==>
            !DropsNodes(target) || Closed(nodes, edges)
  {
    hide Joined, DropsNodes, DropsEdges, KeySet, Ranking, Selected, Undropped;
    var joined := EdgesJoined(nodes, edges, target, chosen);
    NoneSelected(NodeIds(nodes), chosen);
    NoneSelected(Ids(joined), chosenEdges);
    NothingDropped(nodes, |nodes|);
    NothingDropped(joined, |joined|);
    assert nodes[..|nodes|] == nodes && joined[..|joined|] == joined;
    assert EdgesLeft(nodes, edges, target, chosen, chosenEdges) == joined;
    if DropsNodes(target) { JoinedWhole(nodes, edges); }
  }

  lemma NoneSelected(ids: seq<string>, chosen: seq<nat>)
    requires |chosen| == 0
    ensures Selected(ids, chosen) == {}
  {
    hide Ranking;
  }

  lemma JoinedWhole(nodes: seq<Node>, edges: seq<Edge>)
    ensures Joined(edges, set n | n in nodes :: n.id, |edges|) == edges <==> Closed(nodes, edges)
  {
    hide Joined, KeySet, Subsequence;
    KeptIds(nodes);
    JoinedAll(edges, set n | n in nodes :: n.id, |edges|);
    if Closed(nodes, edges) {
      forall i | 0 <= i < |edges| ensures HasId(nodes, edges[i].source) && HasId(nodes, edges[i].target) {
        assert edges[i] in edges;
      }
    }
  }

  // Order independence

  lemma SameMultisetMembers<T(!new)>(xs: seq<T>, ys: seq<T>)
    requires multiset(xs) == multiset(ys)
    ensures |xs| == |ys| && forall x :: x in xs <==> x in ys
  {
    SameLength(xs, ys);
    forall x ensures x in xs <==> x in ys {
      assert x in xs <==> x in multiset(xs);
    }
  }

  /** What a draw leaves of a list. */
  ghost function Survivors<T>(xs: seq<T>, key: T -> string, chosen: seq<nat>): seq<T>
    requires forall i :: 0 <= i < |chosen| ==> chosen[i] < |xs|
  {
    Undropped(xs, Selected(MapSeq(key, xs), chosen), |xs|)
  }

  /** No dropped element shares its id with a different one that is left. */
  ghost predicate NoneSplit<T(!new)>(xs: seq<T>, key: T -> string, chosen: seq<nat>)
    requires forall i :: 0 <= i < |chosen| ==> chosen[i] < |xs|
  {
    var drop := Selected(MapSeq(key, xs), chosen);
    forall p, q :: 0 <= p < |xs| && 0 <= q < |xs| && p in drop && q !in drop && key(xs[p]) == key(xs[q]) ==>
      xs[p] == xs[q]
  }

  /** The positions below `k` that hold `x` and are not dropped. */
  ghost function Holders<T(!new)>(xs: seq<T>, drop: set<nat>, k: nat, x: T): set<nat>
    requires k <= |xs|
  {
    set p | 0 <= p < k && p !in drop && xs[p] == x
  }

  lemma HoldersNext<T(!new)>(xs: seq<T>, drop: set<nat>, k: nat, x: T)
    requires k < |xs|
    ensures |Holders(xs, drop, k + 1, x)| == |Holders(xs, drop, k, x)| + if k !in drop && xs[k] == x then 1 else 0
  {
    var before := Holders(xs, drop, k, x);
    assert Holders(xs, drop, k + 1, x) == if k !in drop && xs[k] == x then before + {k} else before;
  }

  lemma UndroppedNext<T(!new)>(xs: seq<T>, drop: set<nat>, k: nat, x: T)
    requires k < |xs|
    ensures multiset(Undropped(xs, drop, k + 1))[x]
         == multiset(Undropped(xs, drop, k))[x] + if k !in drop && xs[k] == x then 1 else 0
  {
    assert k in drop ==> Undropped(xs, drop, k + 1) == Undropped(xs, drop, k);
  }

  lemma NoHolders<T(!new)>(xs: seq<T>, drop: set<nat>, x: T)
    ensures multiset(Undropped(xs, drop, 0))[x] == |Holders(xs, drop, 0, x)|
  {
    assert Holders(xs, drop, 0, x) == {};
  }

  lemma {:induction false} HoldersCounted<T(!new)>(xs: seq<T>, drop: set<nat>, k: nat, x: T)
    requires k <= |xs|
    ensures multiset(Undropped(xs, drop, k))[x] == |Holders(xs, drop, k, x)|
  {
    hide Undropped, Holders;
    if k > 0 {
      HoldersCounted(xs, drop, k - 1, x);
      HoldersNext(xs, drop, k - 1, x);
      UndroppedNext(xs, drop, k - 1, x);
    } else {
      NoHolders(xs, drop, x);
    }
  }

  lemma HoldersOfAll<T(!new)>(xs: seq<T>, x: T)
    ensures |Holders(xs, {}, |xs|, x)| == multiset(xs)[x]
  {
    HoldersCounted(xs, {}, |xs|, x);
    NothingDropped(xs, |xs|);
    assert xs[..|xs|] == xs;
  }

  /** How many copies of `x` are left, when nothing, everything, or only copies of `x` can be left of its id. */
  lemma LeftOfId<T(!new)>(xs: seq<T>, key: T -> string, chosen: seq<nat>, x: T)
    requires forall i :: 0 <= i < |chosen| ==> chosen[i] < |xs|
    ensures var ids, left := MapSeq(key, xs), multiset(Survivors(xs, key, chosen))[x];
            var u := |LeftPositions(ids, chosen, key(x))|;
            && (u == 0 ==> left == 0)
            && (u == multiset(ids)[key(x)] ==> left == multiset(xs)[x])
            && ((forall y :: y in xs && key(y) == key(x) ==> y == x) ==> left == u)
  {
    hide Selected, Undropped;
    var ids := MapSeq(key, xs);
    var drop := Selected(ids, chosen);
    var holders, all := Holders(xs, drop, |xs|, x), Holders(xs, {}, |xs|, x);
    var left, bearers := LeftPositions(ids, chosen, key(x)), Holders(ids, {}, |ids|, key(x));
    HoldersCounted(xs, drop, |xs|, x);
    HoldersOfAll(xs, x);
    HoldersOfAll(ids, key(x));
    assert holders <= left && left <= bearers;
    SmallerSet(holders, left);
    if |left| == |bearers| {
      SmallerSet(left, bearers);
      assert all <= holders by {
        forall p | p in all ensures p in holders { assert p in bearers; }
      }
      assert holders == all;
    }
    if forall y :: y in xs && key(y) == key(x) ==> y == x {
      assert holders == left by {
        forall p | p in left ensures p in holders { assert xs[p] in xs; }
      }
    }
  }

  /** When no id is split, a rearrangement leaves as many copies of `x`. */
  lemma UnsplitCount<T(!new)>(xs: seq<T>, ys: seq<T>, key: T -> string, chosen: seq<nat>, x: T)
    requires multiset(xs) == multiset(ys) && |xs| == |ys|
    requires forall i :: 0 <= i < |chosen| ==> chosen[i] < |xs|
    requires NoneSplit(xs, key, chosen) && x in xs
    ensures multiset(Survivors(xs, key, chosen))[x] == multiset(Survivors(ys, key, chosen))[x]
  {
    hide Selected, Undropped, Survivors;
    var ids, ids' := MapSeq(key, xs), MapSeq(key, ys);
    MappedMultiset(xs, ys, key);
    SameMultisetMembers(xs, ys);
    LeftIgnoresOrder(ids, ids', chosen, key(x));
    LeftOfId(xs, key, chosen, x);
    LeftOfId(ys, key, chosen, x);
    var drop, left := Selected(ids, chosen), LeftPositions(ids, chosen, key(x));
    if p, q :| 0 <= p < |xs| && 0 <= q < |xs| && ids[p] == ids[q] == key(x) && p in drop && q !in drop {
      forall y | y in xs && key(y) == key(x) ensures y == x {
        OneOfId(xs, key, chosen, p, q, x);
        OneOfId(xs, key, chosen, p, q, y);
      }
    } else if |left| > 0 {
      HoldersOfAll(ids, key(x));
      var q :| q in left;
      assert left == Holders(ids, {}, |ids|, key(x));
    }
  }

  lemma OneOfId<T(!new)>(xs: seq<T>, key: T -> string, chosen: seq<nat>, p: nat, q: nat, y: T)
    requires forall i :: 0 <= i < |chosen| ==> chosen[i] < |xs|
    requires NoneSplit(xs, key, chosen) && p < |xs| && q < |xs| && key(xs[p]) == key(xs[q]) == key(y) && y in xs
    requires p in Selected(MapSeq(key, xs), chosen) && q !in Selected(MapSeq(key, xs), chosen)
    ensures y == xs[p]
  {
    hide Selected;
    var r :| 0 <= r < |xs| && xs[r] == y;
    if r in Selected(MapSeq(key, xs), chosen) {
      assert xs[r] == xs[q];
    }
  }

  /** A split id: exchanging the two elements changes what is left. */
  lemma SplitMatters<T(!new)>(xs: seq<T>, key: T -> string, chosen: seq<nat>, p: nat, q: nat)
    requires forall i :: 0 <= i < |chosen| ==> chosen[i] < |xs|
    requires p < |xs| && q < |xs| && key(xs[p]) == key(xs[q]) && xs[p] != xs[q]
    requires p in Selected(MapSeq(key, xs), chosen) && q !in Selected(MapSeq(key, xs), chosen)
    ensures var ys := xs[p := xs[q]][q := xs[p]];
            && multiset(ys) == multiset(xs)
            && multiset(Survivors(ys, key, chosen)) != multiset(Survivors(xs, key, chosen))
  {
    hide Selected, Undropped;
    var ys := xs[p := xs[q]][q := xs[p]];
    var drop := Selected(MapSeq(key, xs), chosen);
    assert MapSeq(key, ys) == MapSeq(key, xs);
    HoldersCounted(xs, drop, |xs|, xs[p]);
    HoldersCounted(ys, drop, |ys|, xs[p]);
    assert Holders(ys, drop, |ys|, xs[p]) == Holders(xs, drop, |xs|, xs[p]) + {q};
  }

  /**
   * Dropping by draw leaves the same elements of every arrangement of a list exactly when no dropped element shares
   * its id with a different one that is left.
   */
  lemma {:induction false} DropOrderExact<T(!new)>(xs: seq<T>, key: T -> string, chosen: seq<nat>)
    requires forall i :: 0 <= i < |chosen| ==> chosen[i] < |xs|
    ensures (forall ys :: |ys| == |xs| && multiset(ys) == multiset(xs) ==>
               multiset(Survivors(ys, key, chosen)) == multiset(Survivors(xs, key, chosen))) <==>
            NoneSplit(xs, key, chosen)
  {
    hide Selected, Undropped, Survivors;
    if NoneSplit(xs, key, chosen) {
      forall ys | |ys| == |xs| && multiset(ys) == multiset(xs)
        ensures multiset(Survivors(ys, key, chosen)) == multiset(Survivors(xs, key, chosen))
      {
        UnsplitRearranged(xs, ys, key, chosen);
      }
    } else {
      var drop := Selected(MapSeq(key, xs), chosen);
      var p, q :| 0 <= p < |xs| && 0 <= q < |xs| && key(xs[p]) == key(xs[q]) && p in drop && q !in drop
                  && xs[p] != xs[q];
      SplitMatters(xs, key, chosen, p, q);
    }
  }

  lemma UnsplitRearranged<T(!new)>(xs: seq<T>, ys: seq<T>, key: T -> string, chosen: seq<nat>)
    requires multiset(xs) == multiset(ys) && |xs| == |ys|
    requires forall i :: 0 <= i < |chosen| ==> chosen[i] < |xs|
    requires NoneSplit(xs, key, chosen)
    ensures multiset(Survivors(xs, key, chosen)) == multiset(Survivors(ys, key, chosen))
  {
    hide Selected, Undropped, NoneSplit;
    SameMultisetMembers(xs, ys);
    forall x ensures multiset(Survivors(xs, key, chosen))[x] == multiset(Survivors(ys, key, chosen))[x] {
      if x in xs {
        UnsplitCount(xs, ys, key, chosen, x);
      } else {
        HoldersCounted(xs, Selected(MapSeq(key, xs), chosen), |xs|, x);
        HoldersCounted(ys, Selected(MapSeq(key, ys), chosen), |ys|, x);
      }
    }
  }

  /** Of two different elements with one id a single draw splits the id. */
  lemma PairSplit<T(!new)>(xs: seq<T>, key: T -> string, chosen: seq<nat>)
    requires |xs| == 2 && key(xs[0]) == key(xs[1]) && xs[0] != xs[1] && |chosen| == 1 && chosen[0] < 2
    ensures !NoneSplit(xs, key, chosen)
  {
    hide Selected;
    var drop := Selected(MapSeq(key, xs), chosen);
    SelectedSize(MapSeq(key, xs), chosen);
    var p :| p in drop;
    assert drop == {p} by {
      if q :| q in drop && q != p { SmallerSet({p, q}, drop); }
    }
    var q := 1 - p;
    assert q !in drop && key(xs[p]) == key(xs[q]);
  }

  /** In particular distinct ids are never split. */
  lemma DistinctUnsplit<T(!new)>(xs: seq<T>, key: T -> string, chosen: seq<nat>)
    requires DistinctKeys(xs, key) && forall i :: 0 <= i < |chosen| ==> chosen[i] < |xs|
    ensures NoneSplit(xs, key, chosen)
  {
    hide Selected;
    forall p, q | 0 <= p < |xs| && 0 <= q < |xs| && p != q ensures key(xs[p]) != key(xs[q]) {
      if p < q {
        assert key(xs[p]) != key(xs[q]);
      } else {
        assert key(xs[q]) != key(xs[p]);
      }
    }
  }

  // Both stages

  /** How often `e` stands among the first `k` edges. */
  ghost function Occurs(edges: seq<Edge>, k: nat, e: Edge): nat
    requires k <= |edges|
  {
    if k == 0 then 0 else Occurs(edges, k - 1, e) + (if edges[k - 1] == e then 1 else 0)
  }

  lemma {:induction false} OccursCounts(edges: seq<Edge>, k: nat, e: Edge)
    requires k <= |edges|
    ensures Occurs(edges, k, e) == multiset(edges[..k])[e]
  {
    if k > 0 {
      OccursCounts(edges, k - 1, e);
      assert edges[..k] == edges[..k - 1] + [edges[k - 1]];
    }
  }

  lemma PushCount<T>(xs: seq<T>, y: T, x: T)
    ensures multiset(xs + [y])[x] == multiset(xs)[x] + if y == x then 1 else 0
  {
  }

  lemma JoinedNext(edges: seq<Edge>, kept: set<string>, k: nat)
    requires k < |edges|
    ensures Joined(edges, kept, k + 1) ==
      if edges[k].source in kept && edges[k].target in kept then Joined(edges, kept, k) + [edges[k]]
      else Joined(edges, kept, k)
  {
  }

  lemma {:induction false} JoinedCount(edges: seq<Edge>, kept: set<string>, k: nat, e: Edge)
    requires k <= |edges|
    ensures multiset(Joined(edges, kept, k))[e]
         == if e.source in kept && e.target in kept then Occurs(edges, k, e) else 0
  {
    hide Joined;
    if k > 0 {
      JoinedCount(edges, kept, k - 1, e);
      JoinedNext(edges, kept, k - 1);
      PushCount(Joined(edges, kept, k - 1), edges[k - 1], e);
    } else {
      NothingJoined(edges, kept);
    }
  }

  lemma NothingJoined(edges: seq<Edge>, kept: set<string>)
    ensures Joined(edges, kept, 0) == []
  {
  }

  lemma JoinedRearranged(edges: seq<Edge>, edges': seq<Edge>, kept: set<string>)
    requires multiset(edges) == multiset(edges')
    ensures multiset(Joined(edges, kept, |edges|)) == multiset(Joined(edges', kept, |edges'|))
  {
    hide Joined, Occurs;
    assert edges[..|edges|] == edges && edges'[..|edges'|] == edges';
    forall e ensures multiset(Joined(edges, kept, |edges|))[e] == multiset(Joined(edges', kept, |edges'|))[e] {
      JoinedCount(edges, kept, |edges|, e);
      JoinedCount(edges', kept, |edges'|, e);
      OccursCounts(edges, |edges|, e);
      OccursCounts(edges', |edges'|, e);
    }
  }

  /** The position in the list of an edge of the join. */
  lemma {:induction false} JoinedOrigin(edges: seq<Edge>, kept: set<string>, k: nat, p: nat) returns (i: nat)
    requires k <= |edges| && p < |Joined(edges, kept, k)|
    ensures i < k && edges[i] == Joined(edges, kept, k)[p] && |Joined(edges, kept, i)| == p
    ensures edges[i].source in kept && edges[i].target in kept
  {
    if p < |Joined(edges, kept, k - 1)| {
      i := JoinedOrigin(edges, kept, k - 1, p);
    } else {
      i := k - 1;
    }
  }

  /** Replacing an edge of the join by another that is joined. */
  lemma {:induction false} JoinedReplaced(edges: seq<Edge>, kept: set<string>, k: nat, i: nat, e: Edge)
    requires k <= |edges| && i < |edges| && edges[i].source in kept && edges[i].target in kept
    requires e.source in kept && e.target in kept
    ensures |Joined(edges[i := e], kept, k)| == |Joined(edges, kept, k)|
    ensures i < k ==> |Joined(edges, kept, i)| < |Joined(edges, kept, k)|
    ensures Joined(edges[i := e], kept, k)
         == if i < k then Joined(edges, kept, k)[|Joined(edges, kept, i)| := e] else Joined(edges, kept, k)
  {
    if k > 0 { JoinedReplaced(edges, kept, k - 1, i, e); }
  }

  /** Two edges of a join exchange their places when they do so in the list. */
  lemma JoinedExchanged(edges: seq<Edge>, kept: set<string>, p: nat, q: nat) returns (edges': seq<Edge>)
    requires var joined := Joined(edges, kept, |edges|); p < |joined| && q < |joined|
    ensures multiset(edges') == multiset(edges) && |edges'| == |edges|
    ensures var joined := Joined(edges, kept, |edges|);
            Joined(edges', kept, |edges'|) == joined[p := joined[q]][q := joined[p]]
  {
    hide Joined;
    var i := JoinedOrigin(edges, kept, |edges|, p);
    var j := JoinedOrigin(edges, kept, |edges|, q);
    var once := edges[i := edges[j]];
    edges' := once[j := edges[i]];
    JoinedReplaced(edges, kept, |edges|, i, edges[j]);
    JoinedReplaced(once, kept, |edges|, j, edges[i]);
    JoinedReplaced(edges, kept, j, i, edges[j]);
  }

  /** No stage splits an id. */
  ghost predicate Unsplit(nodes: seq<Node>, edges: seq<Edge>, target: string, chosen: seq<nat>, chosenEdges: seq<nat>)
    requires forall i :: 0 <= i < |chosen| ==> chosen[i] < |nodes|
    requires forall i :: 0 <= i < |chosenEdges| ==> chosenEdges[i] < |EdgesJoined(nodes, edges, target, chosen)|
  {
    && (DropsNodes(target) ==> NoneSplit(nodes, NodeId, chosen))
    && (DropsEdges(target) ==> NoneSplit(EdgesJoined(nodes, edges, target, chosen), EdgeId, chosenEdges))
  }

  /** Both arrangements leave the same nodes and the same edges. */
  ghost predicate LeftAlikeBy(nodes: seq<Node>, edges: seq<Edge>, nodes': seq<Node>, edges': seq<Edge>, target: string,
                              chosen: seq<nat>, chosenEdges: seq<nat>)
    requires forall i :: 0 <= i < |chosen| ==> chosen[i] < |nodes|
    requires forall i :: 0 <= i < |chosenEdges| ==> chosenEdges[i] < |EdgesJoined(nodes, edges, target, chosen)|
  {
    && |nodes'| == |nodes|
    && |EdgesJoined(nodes', edges', target, chosen)| == |EdgesJoined(nodes, edges, target, chosen)|
    && multiset(NodesLeft(nodes, target, chosen)) == multiset(NodesLeft(nodes', target, chosen))
    && multiset(EdgesLeft(nodes, edges, target, chosen, chosenEdges))
         == multiset(EdgesLeft(nodes', edges', target, chosen, chosenEdges))
  }

  lemma NodesLeftAlike(nodes: seq<Node>, edges: seq<Edge>, nodes': seq<Node>, edges': seq<Edge>, target: string,
                       chosen: seq<nat>)
    requires multiset(nodes) == multiset(nodes') && multiset(edges) == multiset(edges') && |nodes| == |nodes'|
    requires forall i :: 0 <= i < |chosen| ==> chosen[i] < |nodes|
    requires DropsNodes(target) ==> NoneSplit(nodes, NodeId, chosen)
    ensures multiset(NodesLeft(nodes, target, chosen)) == multiset(NodesLeft(nodes', target, chosen))
    ensures multiset(EdgesJoined(nodes, edges, target, chosen)) == multiset(EdgesJoined(nodes', edges', target, chosen))
  {
    hide Selected, Undropped, Joined, DropsNodes, NoneSplit;
    if DropsNodes(target) {
      UnsplitRearranged(nodes, nodes', NodeId, chosen);
      var left, left' := NodesLeft(nodes, target, chosen), NodesLeft(nodes', target, chosen);
      assert multiset(left) == multiset(left');
      SameMultisetMembers(left, left');
      var kept := set n | n in left :: n.id;
      assert kept == set n | n in left' :: n.id;
      JoinedRearranged(edges, edges', kept);
    }
  }

  lemma UnsplitLeftAlike(nodes: seq<Node>, edges: seq<Edge>, nodes': seq<Node>, edges': seq<Edge>, target: string,
                         chosen: seq<nat>, chosenEdges: seq<nat>)
    requires multiset(nodes) == multiset(nodes') && multiset(edges) == multiset(edges')
    requires forall i :: 0 <= i < |chosen| ==> chosen[i] < |nodes|
    requires forall i :: 0 <= i < |chosenEdges| ==> chosenEdges[i] < |EdgesJoined(nodes, edges, target, chosen)|
    requires Unsplit(nodes, edges, target, chosen, chosenEdges)
    ensures LeftAlikeBy(nodes, edges, nodes', edges', target, chosen, chosenEdges)
  {
    hide Selected, Undropped, Joined, DropsNodes, DropsEdges, NoneSplit;
    SameLength(nodes, nodes');
    NodesLeftAlike(nodes, edges, nodes', edges', target, chosen);
    var joined, joined' := EdgesJoined(nodes, edges, target, chosen), EdgesJoined(nodes', edges', target, chosen);
    SameLength(joined, joined');
    if DropsEdges(target) {
      UnsplitRearranged(joined, joined', EdgeId, chosenEdges);
    }
  }

  /** A split id in either stage: some arrangement leaves something else. */
  lemma SplitLeftOtherwise(nodes: seq<Node>, edges: seq<Edge>, target: string, chosen: seq<nat>, chosenEdges: seq<nat>)
    returns (nodes': seq<Node>, edges': seq<Edge>)
    requires forall i :: 0 <= i < |chosen| ==> chosen[i] < |nodes|
    requires forall i :: 0 <= i < |chosenEdges| ==> chosenEdges[i] < |EdgesJoined(nodes, edges, target, chosen)|
    requires !Unsplit(nodes, edges, target, chosen, chosenEdges)
    ensures multiset(nodes) == multiset(nodes') && multiset(edges) == multiset(edges')
    ensures !LeftAlikeBy(nodes, edges, nodes', edges', target, chosen, chosenEdges)
  {
    hide Selected, Undropped, Joined, DropsNodes, DropsEdges;
    nodes', edges' := nodes, edges;
    if DropsNodes(target) && !NoneSplit(nodes, NodeId, chosen) {
      nodes' := SplitExchanged(nodes, NodeId, chosen);
    } else {
      var joined := EdgesJoined(nodes, edges, target, chosen);
      var p, q := SplitPair(joined, EdgeId, chosenEdges);
      SplitMatters(joined, EdgeId, chosenEdges, p, q);
      if DropsNodes(target) {
        edges' := JoinedExchanged(edges, set n | n in NodesLeft(nodes, target, chosen) :: n.id, p, q);
      } else {
        edges' := joined[p := joined[q]][q := joined[p]];
      }
    }
  }

  lemma SplitPair<T(!new)>(xs: seq<T>, key: T -> string, chosen: seq<nat>) returns (p: nat, q: nat)
    requires forall i :: 0 <= i < |chosen| ==> chosen[i] < |xs|
    requires !NoneSplit(xs, key, chosen)
    ensures p < |xs| && q < |xs| && key(xs[p]) == key(xs[q]) && xs[p] != xs[q]
    ensures p in Selected(MapSeq(key, xs), chosen) && q !in Selected(MapSeq(key, xs), chosen)
  {
    hide Selected;
    var drop := Selected(MapSeq(key, xs), chosen);
    p, q :| 0 <= p < |xs| && 0 <= q < |xs| && p in drop && q !in drop && key(xs[p]) == key(xs[q]) && xs[p] != xs[q];
  }

  lemma SplitExchanged<T(!new)>(xs: seq<T>, key: T -> string, chosen: seq<nat>) returns (ys: seq<T>)
    requires forall i :: 0 <= i < |chosen| ==> chosen[i] < |xs|
    requires !NoneSplit(xs, key, chosen)
    ensures multiset(ys) == multiset(xs) && |ys| == |xs|
    ensures multiset(Survivors(ys, key, chosen)) != multiset(Survivors(xs, key, chosen))
  {
    hide NoneSplit, Selected, Survivors;
    var p, q := SplitPair(xs, key, chosen);
    SplitMatters(xs, key, chosen, p, q);
    ys := xs[p := xs[q]][q := xs[p]];
  }

  /**
   * Order independence of dropout, exactly: with the same draws every arrangement of the input lists leaves the same
   * nodes and the same edges exactly when neither stage drops one of two different elements with one id and leaves the
   * other.
   */
  lemma {:induction false} DropoutOrderExact(nodes: seq<Node>, edges: seq<Edge>, intensity: real, target: string,
                                             chosen: seq<nat>, chosenEdges: seq<nat>)
    requires LegalDraws(nodes, edges, intensity, target, chosen, chosenEdges)
    ensures (forall nodes', edges' :: multiset(nodes) == multiset(nodes') && multiset(edges) == multiset(edges') ==>
               LeftAlikeBy(nodes, edges, nodes', edges', target, chosen, chosenEdges)) <==>
            Unsplit(nodes, edges, target, chosen, chosenEdges)
  {
    hide Selected, Undropped, Joined, DropsNodes, DropsEdges, NoneSplit, EdgesJoined, LeftAlikeBy, Unsplit;
    if Unsplit(nodes, edges, target, chosen, chosenEdges) {
      forall nodes', edges' | multiset(nodes) == multiset(nodes') && multiset(edges) == multiset(edges')
        ensures LeftAlikeBy(nodes, edges, nodes', edges', target, chosen, chosenEdges)
      {
        UnsplitLeftAlike(nodes, edges, nodes', edges', target, chosen, chosenEdges);
      }
    } else {
      var nodes', edges' := SplitLeftOtherwise(nodes, edges, target, chosen, chosenEdges);
    }
  }

  lemma {:induction false} JoinedDistinct(edges: seq<Edge>, kept: set<string>, k: nat)
    requires DistinctKeys(edges, EdgeId) && k <= |edges|
    ensures DistinctKeys(Joined(edges, kept, k), EdgeId)
  {
    if k > 0 {
      JoinedDistinct(edges, kept, k - 1);
      forall e | e in Joined(edges, kept, k - 1) ensures EdgeId(e) != EdgeId(edges[k - 1]) {
        JoinedMember(edges, kept, k - 1, e);
      }
    }
  }

  /**
   * So with distinct ids and the same draws, rearranging the input lists leaves the same nodes and the same edges, each
   * still in its own input order.
   */
  lemma DropoutIgnoresOrder(nodes: seq<Node>, edges: seq<Edge>, nodes': seq<Node>, edges': seq<Edge>,
                            intensity: real, target: string, chosen: seq<nat>, chosenEdges: seq<nat>)
    requires multiset(nodes) == multiset(nodes') && multiset(edges) == multiset(edges')
    requires UniqueIds(nodes) && DistinctKeys(edges, EdgeId)
    requires LegalDraws(nodes, edges, intensity, target, chosen, chosenEdges)
    ensures LegalDraws(nodes', edges', intensity, target, chosen, chosenEdges)
    ensures LeftAlikeBy(nodes, edges, nodes', edges', target, chosen, chosenEdges)
  {
    hide Selected, Undropped, Joined, DropsNodes, DropsEdges, DistinctKeys, NoneSplit;
    DistinctUnsplit(nodes, NodeId, chosen);
    if DropsNodes(target) {
      JoinedDistinct(edges, set n | n in NodesLeft(nodes, target, chosen) :: n.id, |edges|);
    }
    DistinctUnsplit(EdgesJoined(nodes, edges, target, chosen), EdgeId, chosenEdges);
    UnsplitLeftAlike(nodes, edges, nodes', edges', target, chosen, chosenEdges);
  }
}

/** Structural edge perturbations: degree-preserving swaps and plain rewiring. */
module Rewiring {
  import opened Sequences
  import opened Ordering
  import opened GraphModels
  import opened Selection

  function Ids(edges: seq<Edge>): (ids: seq<string>)
    ensures |ids| == |edges|
  {
    MapSeq(EdgeId, edges)
  }

  ghost function Targets(edges: seq<Edge>): seq<string> { MapSeq(EdgeTarget, edges) }

  ghost function Sources(edges: seq<Edge>): seq<string> { MapSeq(EdgeSource, edges) }

  ghost function InDegree(edges: seq<Edge>, v: string): nat { multiset(Targets(edges))[v] }

  ghost function OutDegree(edges: seq<Edge>, v: string): nat { multiset(Sources(edges))[v] }

  /** Only targets may differ. */
  ghost predicate SameButTargets(before: seq<Edge>, after: seq<Edge>) {
    |before| == |after| && forall i :: 0 <= i < |before| ==> after[i] == before[i].(target := after[i].target)
  }

  lemma SourcesKept(before: seq<Edge>, after: seq<Edge>, v: string)
    requires SameButTargets(before, after)
    ensures Ids(after) == Ids(before) && OutDegree(after, v) == OutDegree(before, v)
  {
    assert Sources(after) == Sources(before);
  }

  // Degree-preserving swaps

  function SwapTargets(es: seq<Edge>, x: nat, y: nat): seq<Edge>
    requires x < |es| && y < |es|
  {
    es[x := es[x].(target := es[y].target)][y := es[y].(target := es[x].target)]
  }

  predicate LegalPairs(draws: seq<(nat, nat)>, n: nat) {
    forall t :: 0 <= t < |draws| ==> draws[t].0 < n && draws[t].1 < n && draws[t].0 != draws[t].1
  }

  /** The edges after the first `k` drawn swaps. */
  function Swapped(es: seq<Edge>, order: seq<nat>, draws: seq<(nat, nat)>, k: nat): (r: seq<Edge>)
    requires |order| == |es| && forall c :: 0 <= c < |order| ==> order[c] < |es|
    requires k <= |draws| && LegalPairs(draws, |es|)
    ensures |r| == |es|
  {
    if k == 0 then es
    else SwapTargets(Swapped(es, order, draws, k - 1), order[draws[k - 1].0], order[draws[k - 1].1])
  }

  /** On fewer than two edges there is nothing to swap; otherwise `k` swaps are drawn. */
  method DegreePreservingSwaps(edges: array<Edge>, k: nat, draws: seq<(nat, nat)>)
    requires LegalPairs(draws, edges.Length) && (edges.Length >= 2 ==> |draws| >= k)
    modifies edges
    ensures edges.Length >= 2 ==> edges[..] == Swapped(old(edges[..]), Order(Ids(old(edges[..]))), draws, k)
    ensures edges.Length < 2 ==> edges[..] == old(edges[..])
  {
    if edges.Length < 2 { return; }
    ghost var start := edges[..];
    var order := Order(Ids(edges[..]));
    hide Order, Ids, SwapTargets, Swapped;
    NothingSwapped(start, order, draws);
    for t := 0 to k
      invariant edges[..] == Swapped(start, order, draws, t)
    {
      OneMoreSwap(start, order, draws, t);
      SwapPositions(edges, order[draws[t].0], order[draws[t].1]);
    }
  }

  lemma NothingSwapped(es: seq<Edge>, order: seq<nat>, draws: seq<(nat, nat)>)
    requires |order| == |es| && forall c :: 0 <= c < |order| ==> order[c] < |es|
    requires LegalPairs(draws, |es|)
    ensures Swapped(es, order, draws, 0) == es
  {
  }

  lemma OneMoreSwap(es: seq<Edge>, order: seq<nat>, draws: seq<(nat, nat)>, k: nat)
    requires |order| == |es| && forall c :: 0 <= c < |order| ==> order[c] < |es|
    requires k < |draws| && LegalPairs(draws, |es|)
    ensures order[draws[k].0] < |es| && order[draws[k].1] < |es|
    ensures Swapped(es, order, draws, k + 1)
              == SwapTargets(Swapped(es, order, draws, k), order[draws[k].0], order[draws[k].1])
  {
    hide SwapTargets;
  }

  method SwapPositions(edges: array<Edge>, ia: nat, ib: nat)
    requires ia < edges.Length && ib < edges.Length
    modifies edges
    ensures edges[..] == SwapTargets(old(edges[..]), ia, ib)
  {
    var ea, eb := edges[ia], edges[ib];
    edges[ia] := ea.(target := eb.target);
    edges[ib] := eb.(target := ea.target);
  }

  lemma SwapKeepsTargets(es: seq<Edge>, x: nat, y: nat)
    requires x < |es| && y < |es|
    ensures multiset(Targets(SwapTargets(es, x, y))) == multiset(Targets(es))
    ensures SameButTargets(es, SwapTargets(es, x, y))
  {
    var ts := Targets(es);
    assert Targets(SwapTargets(es, x, y)) == ts[x := ts[y]][y := ts[x]];
  }

  /** Any number of swaps keeps every node's in- and out-degree, and everything about each position but its target. */
  lemma {:induction false} SwapsKeepDegrees(es: seq<Edge>, order: seq<nat>, draws: seq<(nat, nat)>, k: nat, v: string)
    requires |order| == |es| && forall c :: 0 <= c < |order| ==> order[c] < |es|
    requires k <= |draws| && LegalPairs(draws, |es|)
    ensures var out := Swapped(es, order, draws, k);
      && SameButTargets(es, out)
      && multiset(Targets(out)) == multiset(Targets(es))
      && InDegree(out, v) == InDegree(es, v)
      && OutDegree(out, v) == OutDegree(es, v)
  {
    hide SwapTargets, Targets, Sources;
    if k > 0 {
      SwapsKeepDegrees(es, order, draws, k - 1, v);
      SwapKeepsTargets(Swapped(es, order, draws, k - 1), order[draws[k - 1].0], order[draws[k - 1].1]);
    }
    SourcesKept(es, Swapped(es, order, draws, k), v);
  }

  /** Equal elements wherever ids agree. */
  ghost predicate SameById(es: seq<Edge>, fs: seq<Edge>) {
    |es| == |fs| && forall i, j :: 0 <= i < |es| && 0 <= j < |fs| && es[i].id == fs[j].id ==> es[i] == fs[j]
  }

  lemma RankOwner(ids: seq<string>, ids': seq<string>, c: nat)
    requires NoDuplicates(ids) && multiset(ids) == multiset(ids') && c < |ids|
    ensures |ids| == |ids'| && ids[Order(ids)[c]] == ids'[Order(ids')[c]]
  {
    hide Ranking, SortStrings;
    SameLength(ids, ids');
    RankingPermutes(ids);
    RankingPermutes(ids');
    SortedStringsUnique(ids, ids');
  }

  lemma SwapSameById(es: seq<Edge>, fs: seq<Edge>, x: nat, y: nat, x': nat, y': nat)
    requires SameById(es, fs) && NoDuplicates(Ids(es)) && NoDuplicates(Ids(fs))
    requires x < |es| && y < |es| && x' < |fs| && y' < |fs| && x != y && x' != y'
    requires es[x].id == fs[x'].id && es[y].id == fs[y'].id
    ensures SameById(SwapTargets(es, x, y), SwapTargets(fs, x', y'))
  {
    var out, out' := SwapTargets(es, x, y), SwapTargets(fs, x', y');
    forall i, j | 0 <= i < |es| && 0 <= j < |fs| && out[i].id == out'[j].id ensures out[i] == out'[j] {
      assert es[i].id == fs[j].id;
      assert Ids(es)[i] == es[i].id && Ids(es)[x] == es[x].id && Ids(es)[y] == es[y].id;
      assert Ids(fs)[j] == fs[j].id && Ids(fs)[x'] == fs[x'].id && Ids(fs)[y'] == fs[y'].id;
      assert i == x <==> j == x';
      assert i == y <==> j == y';
      assert es[i] == fs[j] && es[x] == fs[x'] && es[y] == fs[y'];
    }
  }

  /**
   * Order independence: with distinct ids and the same draws, an edge ends up with the same target
   * however the input list is arranged.
   */
  lemma {:induction false} SwapsIgnoreOrder(es: seq<Edge>, fs: seq<Edge>, draws: seq<(nat, nat)>, k: nat)
    requires multiset(es) == multiset(fs) && NoDuplicates(Ids(es))
    requires k <= |draws| && LegalPairs(draws, |es|)
    ensures |es| == |fs|
    ensures SameById(Swapped(es, Order(Ids(es)), draws, k), Swapped(fs, Order(Ids(fs)), draws, k))
    ensures Ids(Swapped(es, Order(Ids(es)), draws, k)) == Ids(es)
            && Ids(Swapped(fs, Order(Ids(fs)), draws, k)) == Ids(fs)
  {
    hide Order, SwapTargets;
    Rearranged(es, fs);
    if k > 0 {
      SwapsIgnoreOrder(es, fs, draws, k - 1);
      var a, b := draws[k - 1].0, draws[k - 1].1;
      RankOwner(Ids(es), Ids(fs), a);
      RankOwner(Ids(es), Ids(fs), b);
      DistinctPlaces(Ids(es), a, b);
      DistinctPlaces(Ids(fs), a, b);
      var u, v := Swapped(es, Order(Ids(es)), draws, k - 1), Swapped(fs, Order(Ids(fs)), draws, k - 1);
      var x, y := Order(Ids(es))[a], Order(Ids(es))[b];
      var x', y' := Order(Ids(fs))[a], Order(Ids(fs))[b];
      assert Ids(u)[x] == u[x].id && Ids(u)[y] == u[y].id && Ids(v)[x'] == v[x'].id && Ids(v)[y'] == v[y'].id;
      SwapSameById(u, v, x, y, x', y');
      SwapKeepsTargets(u, x, y);
      SwapKeepsTargets(v, x', y');
      SourcesKept(u, SwapTargets(u, x, y), "");
      SourcesKept(v, SwapTargets(v, x', y'), "");
    }
  }

  /** Sorted ids are ranked as they stand. */
  lemma OrderOfSorted(ids: seq<string>)
    requires forall i, j :: 0 <= i < j < |ids| ==> StrLe(ids[i], ids[j])
    ensures forall c :: 0 <= c < |ids| ==> Order(ids)[c] == c
  {
    SortOfSorted(Labelled(ids), RankedId, StrLe);
  }

  /** With a repeated id they need not: the edge of the other id gets the target of whichever comes first. */
  lemma {:induction false} SwapsDependOnOrder(e: Edge, f: Edge, g: Edge, es: seq<Edge>, fs: seq<Edge>,
                                              draws: seq<(nat, nat)>)
    requires e.id == f.id != g.id && StrLe(e.id, g.id) && e.target != f.target
    requires |es| == 3 && es[0] == e && es[1] == f && es[2] == g
    requires |fs| == 3 && fs[0] == f && fs[1] == e && fs[2] == g
    requires |draws| == 1 && draws[0] == (0, 2)
    ensures multiset(es) == multiset(fs)
    ensures Swapped(es, Order(Ids(es)), draws, 1)[2] == g.(target := e.target)
    ensures Swapped(fs, Order(Ids(fs)), draws, 1)[2] == g.(target := f.target)
  {
    hide Order, StrLe, SwapTargets, Swapped;
    StrLeTotal(e.id, e.id);
    SwapFirstAndLast(es, draws);
    SwapFirstAndLast(fs, draws);
    EitherOrder(e, f, g);
    assert es == [e, f, g] && fs == [f, e, g];
  }

  lemma EitherOrder(e: Edge, f: Edge, g: Edge)
    ensures multiset([e, f, g]) == multiset([f, e, g])
  {
  }

  lemma SwapFirstAndLast(es: seq<Edge>, draws: seq<(nat, nat)>)
    requires |es| == 3 && forall i, j :: 0 <= i < j < 3 ==> StrLe(es[i].id, es[j].id)
    requires |draws| == 1 && draws[0] == (0, 2)
    ensures Swapped(es, Order(Ids(es)), draws, 1)[2] == es[2].(target := es[0].target)
  {
    hide Order, StrLe, Swapped;
    OrderOfSorted(Ids(es));
    NothingSwapped(es, Order(Ids(es)), draws);
    OneMoreSwap(es, Order(Ids(es)), draws, 0);
  }

  lemma DistinctPlaces(ids: seq<string>, a: nat, b: nat)
    requires a < |ids| && b < |ids| && a != b
    ensures Order(ids)[a] != Order(ids)[b]
  {
    hide Ranking;
    RankingPermutes(ids);
  }

  /** What reordering a list with distinct ids leaves fixed. */
  lemma Rearranged(es: seq<Edge>, fs: seq<Edge>)
    requires multiset(es) == multiset(fs) && NoDuplicates(Ids(es))
    ensures |es| == |fs| && NoDuplicates(Ids(fs)) && multiset(Ids(es)) == multiset(Ids(fs)) && SameById(es, fs)
  {
    SameLength(es, fs);
    MappedMultiset(es, fs, EdgeId);
    PermutationNoDuplicates(Ids(es), Ids(fs));
    forall i, j | 0 <= i < |es| && 0 <= j < |fs| && es[i].id == fs[j].id ensures es[i] == fs[j] {
      assert fs[j] in multiset(es);
      assert fs[j] in es;
      var k :| 0 <= k < |es| && es[k] == fs[j];
      assert Ids(es)[k] == Ids(es)[i];
    }
  }

  // Plain rewiring

  /** The ids other than `a` and `b`, in order. */
  function Except(ids: seq<string>, a: string, b: string): seq<string> {
    if |ids| == 0 then []
    else Except(ids[..|ids| - 1], a, b) + (if ids[|ids| - 1] == a || ids[|ids| - 1] == b then [] else [ids[|ids| - 1]])
  }

  lemma {:induction false} ExceptMember(ids: seq<string>, a: string, b: string, x: string)
    ensures x in Except(ids, a, b) <==> x in ids && x != a && x != b
  {
    if |ids| > 0 {
      ExceptMember(ids[..|ids| - 1], a, b, x);
      assert ids == ids[..|ids| - 1] + [ids[|ids| - 1]];
    }
  }

  lemma {:induction false} ExceptDistinct(ids: seq<string>, a: string, b: string)
    requires NoDuplicates(ids)
    ensures NoDuplicates(Except(ids, a, b))
  {
    if |ids| > 0 {
      var n := |ids| - 1;
      ExceptDistinct(ids[..n], a, b);
      ExceptMember(ids[..n], a, b, ids[n]);
      assert ids[n] !in ids[..n];
    }
  }

  /** The endpoints a rewired edge may move to: not its source if that can be avoided, never its current target. */
  function Candidates(ids: seq<string>, source: string, current: string): seq<string> {
    var c := Except(ids, source, current);
    if |c| > 0 then c else Except(ids, current, current)
  }

  /** `_pick_different`: no draw is consumed when there is nothing to choose from. */
  function PickDifferent(ids: seq<string>, source: string, current: string, draw: nat): string {
    var c := Candidates(ids, source, current);
    if |c| == 0 then current else c[draw % |c|]
  }

  lemma PicksAnother(ids: seq<string>, source: string, current: string, draw: nat)
    ensures PickDifferent(ids, source, current, draw) != current <==> exists x :: x in ids && x != current
    ensures PickDifferent(ids, source, current, draw) != current ==> PickDifferent(ids, source, current, draw) in ids
  {
    hide Except;
    var c := Candidates(ids, source, current);
    forall x ensures x in Except(ids, source, current) <==> x in ids && x != source && x != current {
      ExceptMember(ids, source, current, x);
    }
    forall x ensures x in Except(ids, current, current) <==> x in ids && x != current {
      ExceptMember(ids, current, current, x);
    }
    if x :| x in ids && x != current {
      assert x in Except(ids, current, current);
      assert |c| > 0;
    }
    if |c| > 0 { assert c[draw % |c|] in c; }
  }

  /** An edge does not become a self-loop while a third node exists, and every third node can be picked. */
  lemma PicksThird(ids: seq<string>, source: string, current: string, x: string)
    requires x in ids && x != source && x != current
    ensures forall draw: nat :: PickDifferent(ids, source, current, draw) != source
    ensures exists draw: nat :: PickDifferent(ids, source, current, draw) == x
  {
    hide Except;
    var c := Except(ids, source, current);
    ExceptMember(ids, source, current, x);
    var i :| 0 <= i < |c| && c[i] == x;
    forall draw: nat ensures PickDifferent(ids, source, current, draw) != source {
      assert c[draw % |c|] in c;
      ExceptMember(ids, source, current, c[draw % |c|]);
    }
    assert i % |c| == i;
    assert PickDifferent(ids, source, current, i) == x;
  }

  /** How many integer draws the first `k` positions consume. */
  function Turn(es: seq<Edge>, ids: seq<string>, picked: set<nat>, k: nat): nat
    requires k <= |es|
  {
    if k == 0 then 0
    else Turn(es, ids, picked, k - 1) +
         (if k - 1 in picked && |Candidates(ids, es[k - 1].source, es[k - 1].target)| > 0 then 1 else 0)
  }

  /** Some node is not the edge's target. */
  ghost predicate CanMove(ids: seq<string>, e: Edge) { exists x :: x in ids && x != e.target }

  lemma SomeCandidate(ids: seq<string>, e: Edge)
    ensures |Candidates(ids, e.source, e.target)| > 0 <==> CanMove(ids, e)
  {
    CandidatesDiffer(ids, e.source, e.target);
    PicksAnother(ids, e.source, e.target, 0);
  }

  /** One draw for each selected edge that can move. */
  lemma {:induction false} TurnCounts(es: seq<Edge>, ids: seq<string>, picked: set<nat>, k: nat)
    requires k <= |es|
    ensures Turn(es, ids, picked, k) == |set p | 0 <= p < k && p in picked && CanMove(ids, es[p])|
  {
    hide Candidates, CanMove;
    var upTo := set p | 0 <= p < k && p in picked && CanMove(ids, es[p]);
    if k > 0 {
      TurnCounts(es, ids, picked, k - 1);
      SomeCandidate(ids, es[k - 1]);
      var before := set p | 0 <= p < k - 1 && p in picked && CanMove(ids, es[p]);
      assert upTo == if k - 1 in picked && CanMove(ids, es[k - 1]) then before + {k - 1} else before;
    } else {
      assert upTo == {};
    }
  }

  /** What rewiring makes of position `i`; `raw(t)` is the word behind the t-th integer draw. */
  function RewiredEdge(es: seq<Edge>, ids: seq<string>, picked: set<nat>, raw: nat -> nat, i: nat): Edge
    requires i < |es|
  {
    if i in picked then es[i].(target := PickDifferent(ids, es[i].source, es[i].target, raw(Turn(es, ids, picked, i))))
    else es[i]
  }

  function Rewired(es: seq<Edge>, ids: seq<string>, picked: set<nat>, raw: nat -> nat): (out: seq<Edge>)
    ensures |out| == |es|
    ensures forall i :: 0 <= i < |es| ==> out[i] == RewiredEdge(es, ids, picked, raw, i)
  {
    seq(|es|, i requires 0 <= i < |es| => RewiredEdge(es, ids, picked, raw, i))
  }

  method PlainRewire(edges: array<Edge>, ids: seq<string>, picked: set<nat>, raw: nat -> nat)
    modifies edges
    ensures edges[..] == Rewired(old(edges[..]), ids, picked, raw)
  {
    hide Candidates, PickDifferent, RewiredEdge;
    var t := 0;
    ghost var was := edges[..];
    ghost var out := Rewired(was, ids, picked, raw);
    for i := 0 to edges.Length
      invariant t == Turn(was, ids, picked, i)
      invariant forall k :: 0 <= k < i ==> edges[k] == out[k]
      invariant forall k :: i <= k < edges.Length ==> edges[k] == was[k]
    {
      RewiredAt(was, ids, picked, raw, i);
      var e := edges[i];
      if i in picked {
        edges[i] := e.(target := PickDifferent(ids, e.source, e.target, raw(t)));
        if |Candidates(ids, e.source, e.target)| > 0 { t := t + 1; }
      }
    }
    assert edges[..] == out;
  }

  lemma RewiredAt(es: seq<Edge>, ids: seq<string>, picked: set<nat>, raw: nat -> nat, i: nat)
    requires i < |es|
    ensures i in picked ==>
      RewiredEdge(es, ids, picked, raw, i)
        == es[i].(target := PickDifferent(ids, es[i].source, es[i].target, raw(Turn(es, ids, picked, i))))
    ensures i !in picked ==> RewiredEdge(es, ids, picked, raw, i) == es[i]
  {
    hide PickDifferent, Turn;
  }

  /** The positions whose target a rewiring changed. */
  ghost function Moved(before: seq<Edge>, after: seq<Edge>): set<nat>
    requires |before| == |after|
  {
    set i | 0 <= i < |before| && after[i].target != before[i].target
  }

  /**
   * With at least two node ids, rewiring moves exactly the selected edges, each to an existing node,
   * and touches nothing but targets, so out-degrees stay.
   */
  lemma RewireExact(es: seq<Edge>, ids: seq<string>, chosen: seq<nat>, raw: nat -> nat, intensity: real, v: string)
    requires LegalChoice(chosen, Affected(intensity, |es|), |es|)
    requires exists x, y :: x in ids && y in ids && x != y
    ensures var out := Rewired(es, ids, Selected(Ids(es), chosen), raw);
      && SameButTargets(es, out) && OutDegree(out, v) == OutDegree(es, v)
      && Moved(es, out) == Selected(Ids(es), chosen)
      && |Moved(es, out)| == Affected(intensity, |es|)
      && (0.0 <= intensity <= 1.0 ==> Rounds(|Moved(es, out)|, intensity * |es| as real))
      && forall i :: i in Moved(es, out) ==>
           && out[i].target in ids
           && ((exists x :: x in ids && x != es[i].source && x != es[i].target) ==> out[i].target != out[i].source)
  {
    hide Selected, PickDifferent, Turn;
    var picked := Selected(Ids(es), chosen);
    var out := Rewired(es, ids, picked, raw);
    SelectedSize(Ids(es), chosen);
    forall i | 0 <= i < |es| ensures i in picked <==> out[i].target != es[i].target
                             ensures i in picked ==> out[i].target in ids
    {
      PicksAnother(ids, es[i].source, es[i].target, raw(Turn(es, ids, picked, i)));
    }
    assert Moved(es, out) == picked;
    forall i, x | i in picked && x in ids && x != es[i].source && x != es[i].target
      ensures out[i].target != out[i].source
    {
      PicksThird(ids, es[i].source, es[i].target, x);
    }
    SourcesKept(es, out, v);
  }

  lemma DrawAt(es: seq<Edge>, ids: seq<string>, picked: set<nat>, raw: nat -> nat, i: nat)
    requires i < |es|
    ensures var c := Candidates(ids, es[i].source, es[i].target);
            i in picked && |c| > 0 ==>
              RewiredEdge(es, ids, picked, raw, i) == es[i].(target := c[raw(Turn(es, ids, picked, i)) % |c|])
    ensures i !in picked || |Candidates(ids, es[i].source, es[i].target)| == 0 ==>
              RewiredEdge(es, ids, picked, raw, i) == es[i]
  {
    hide Turn, Candidates;
  }

  /** A stream that tells two turns apart. */
  function Marking(t: nat): nat -> nat {
    (x: nat) => if x == t then 1 else 0
  }

  lemma TurnsMatter(es: seq<Edge>, fs: seq<Edge>, ids: seq<string>, picked: set<nat>, picked': set<nat>, i: nat, j: nat)
    requires i < |es| && j < |fs| && es[i] == fs[j] && i in picked && j in picked'
    requires NoDuplicates(ids) && |Candidates(ids, es[i].source, es[i].target)| > 1
    requires Turn(es, ids, picked, i) != Turn(fs, ids, picked', j)
    ensures var raw := Marking(Turn(es, ids, picked, i));
            RewiredEdge(es, ids, picked, raw, i) != RewiredEdge(fs, ids, picked', raw, j)
  {
    hide Turn, Candidates, RewiredEdge;
    var raw := Marking(Turn(es, ids, picked, i));
    CandidatesDistinct(ids, es[i].source, es[i].target);
    DrawAt(es, ids, picked, raw, i);
    DrawAt(fs, ids, picked', raw, j);
    var c := Candidates(ids, es[i].source, es[i].target);
    assert 1 % |c| == 1 && 0 % |c| == 0 && c[0] != c[1];
  }

  lemma TurnsIrrelevant(es: seq<Edge>, fs: seq<Edge>, ids: seq<string>, picked: set<nat>, picked': set<nat>,
                        raw: nat -> nat, i: nat, j: nat)
    requires i < |es| && j < |fs| && es[i] == fs[j] && (i in picked <==> j in picked')
    requires i !in picked || |Candidates(ids, es[i].source, es[i].target)| <= 1
          || Turn(es, ids, picked, i) == Turn(fs, ids, picked', j)
    ensures RewiredEdge(es, ids, picked, raw, i) == RewiredEdge(fs, ids, picked', raw, j)
  {
    hide Turn, Candidates, RewiredEdge;
    DrawAt(es, ids, picked, raw, i);
    DrawAt(fs, ids, picked', raw, j);
    assert raw(Turn(es, ids, picked, i)) % 1 == 0 && raw(Turn(fs, ids, picked', j)) % 1 == 0;
  }

  lemma CandidatesDiffer(ids: seq<string>, source: string, current: string)
    ensures forall k :: 0 <= k < |Candidates(ids, source, current)| ==> Candidates(ids, source, current)[k] != current
  {
    hide Except;
    var c := Candidates(ids, source, current);
    forall k | 0 <= k < |c| ensures c[k] != current {
      assert c[k] in c;
      ExceptMember(ids, source, current, c[k]);
      ExceptMember(ids, current, current, c[k]);
    }
  }

  /** A selected edge with candidates moves and an unselected one stays. */
  lemma OneSelected(es: seq<Edge>, fs: seq<Edge>, ids: seq<string>, picked: set<nat>, picked': set<nat>,
                    raw: nat -> nat, i: nat, j: nat)
    requires i < |es| && j < |fs| && es[i] == fs[j] && !(i in picked <==> j in picked')
    ensures RewiredEdge(es, ids, picked, raw, i) == RewiredEdge(fs, ids, picked', raw, j) <==>
            |Candidates(ids, es[i].source, es[i].target)| == 0
  {
    hide Turn, Candidates, RewiredEdge;
    DrawAt(es, ids, picked, raw, i);
    DrawAt(fs, ids, picked', raw, j);
    CandidatesDiffer(ids, es[i].source, es[i].target);
  }

  /**
   * Plain rewiring reads its integer draws in list order, so it is order independent only in part: over all random
   * streams, an edge gets the same target at positions `i` and `j` of two arrangements exactly when it has no
   * candidate, or both arrangements treat it alike: not selected, or selected with a single candidate or in its turn.
   */
  lemma {:induction false} RewireOrderExact(es: seq<Edge>, fs: seq<Edge>, ids: seq<string>, picked: set<nat>,
                                            picked': set<nat>, i: nat, j: nat)
    requires i < |es| && j < |fs| && es[i] == fs[j]
    requires NoDuplicates(ids)
    ensures (forall raw: nat -> nat ::
               RewiredEdge(es, ids, picked, raw, i) == RewiredEdge(fs, ids, picked', raw, j)) <==>
            var n := |Candidates(ids, es[i].source, es[i].target)|;
            n == 0 || ((i in picked <==> j in picked') &&
                       (i !in picked || n == 1 || Turn(es, ids, picked, i) == Turn(fs, ids, picked', j)))
  {
    hide Turn, Candidates, RewiredEdge, Marking;
    if !(i in picked <==> j in picked') {
      forall raw: nat -> nat
        ensures RewiredEdge(es, ids, picked, raw, i) == RewiredEdge(fs, ids, picked', raw, j) <==>
                |Candidates(ids, es[i].source, es[i].target)| == 0
      {
        OneSelected(es, fs, ids, picked, picked', raw, i, j);
      }
      var raw := Marking(0);
      assert RewiredEdge(es, ids, picked, raw, i) == RewiredEdge(fs, ids, picked', raw, j) <==>
             |Candidates(ids, es[i].source, es[i].target)| == 0;
    } else if i in picked && |Candidates(ids, es[i].source, es[i].target)| > 1
       && Turn(es, ids, picked, i) != Turn(fs, ids, picked', j) {
      TurnsMatter(es, fs, ids, picked, picked', i, j);
    } else {
      forall raw: nat -> nat ensures RewiredEdge(es, ids, picked, raw, i) == RewiredEdge(fs, ids, picked', raw, j) {
        TurnsIrrelevant(es, fs, ids, picked, picked', raw, i, j);
      }
    }
  }

  /** Two selected edges in either order: the first one's target can depend on the order. */
  lemma PairOrderMatters(e: Edge, f: Edge, ids: seq<string>, es: seq<Edge>, fs: seq<Edge>, picked: set<nat>)
    requires |es| == |fs| == 2 && es[0] == e && es[1] == f && fs[0] == f && fs[1] == e && 0 in picked && 1 in picked
    requires NoDuplicates(ids)
    requires |Candidates(ids, e.source, e.target)| > 1 && |Candidates(ids, f.source, f.target)| > 0
    ensures RewiredEdge(es, ids, picked, Marking(0), 0) != RewiredEdge(fs, ids, picked, Marking(0), 1)
  {
    hide Candidates, RewiredEdge, Marking;
    assert Turn(es, ids, picked, 0) == 0;
    assert Turn(fs, ids, picked, 1) == Turn(fs, ids, picked, 0) + 1;
    TurnsMatter(es, fs, ids, picked, picked, 0, 1);
  }

  lemma TwoMembers(xs: seq<string>, x: string, y: string)
    requires x in xs && y in xs && x != y
    ensures |xs| > 1
  {
  }

  /** For instance two parallel edges over four nodes. */
  lemma {:induction false} RewiringDependsOnOrder(ids: seq<string>, e: Edge, f: Edge)
    requires ids == ["a", "b", "c", "d"]
    requires e == Edge("1", "knows", "a", "b", map[]) && f == Edge("2", "knows", "a", "b", map[])
    ensures RewiredEdge([e, f], ids, {0, 1}, Marking(0), 0) != RewiredEdge([f, e], ids, {0, 1}, Marking(0), 1)
  {
    hide Except, RewiredEdge, Marking, Turn;
    assert ids[0] == "a" && ids[1] == "b" && ids[2] == "c" && ids[3] == "d";
    assert "a"[0] == 'a' && "b"[0] == 'b' && "c"[0] == 'c' && "d"[0] == 'd';
    assert "c" in ids && "d" in ids;
    ExceptMember(ids, "a", "b", "c");
    ExceptMember(ids, "a", "b", "d");
    TwoMembers(Except(ids, "a", "b"), "c", "d");
    PairOrderMatters(e, f, ids, [e, f], [f, e], {0, 1});
  }

  lemma CandidatesDistinct(ids: seq<string>, source: string, current: string)
    requires NoDuplicates(ids)
    ensures NoDuplicates(Candidates(ids, source, current))
  {
    ExceptDistinct(ids, source, current);
    ExceptDistinct(ids, current, current);
  }

  /** `_rewire`: swaps when degrees must be preserved, plain rewiring over the sorted node ids otherwise. */
  method Rewire(nodes: seq<Node>, edges: array<Edge>, intensity: real, degreePreserving: bool,
                chosen: seq<nat>, draws: seq<(nat, nat)>, raw: nat -> nat)
    requires LegalChoice(chosen, Affected(intensity, edges.Length), edges.Length)
    requires LegalPairs(draws, edges.Length) && |draws| >= Affected(intensity, edges.Length)
    modifies edges
    ensures degreePreserving && edges.Length >= 2 ==>
              edges[..] == Swapped(old(edges[..]), Order(Ids(old(edges[..]))), draws,
                                   Affected(intensity, edges.Length))
    ensures degreePreserving && edges.Length < 2 ==> edges[..] == old(edges[..])
    ensures !degreePreserving ==> edges[..] == Rewired(old(edges[..]), SortStrings(MapSeq(NodeId, nodes)),
      Selected(Ids(old(edges[..])), chosen), raw)
  {
    hide Order, Ids, Selected, SwapTargets, RewiredEdge;
    if edges.Length == 0 { return; }
    var k := Affected(intensity, edges.Length);
    if degreePreserving {
      DegreePreservingSwaps(edges, k, draws);
    } else {
      PlainRewire(edges, SortStrings(MapSeq(NodeId, nodes)), Selected(Ids(edges[..]), chosen), raw);
    }
  }
}

/** Choosing which elements a graph perturbation affects: id-ranked, drawn without replacement. */
module Selection {
  import opened Sequences
  import opened Ordering

  function Clamp01(x: real): real {
    if x < 0.0 then 0.0 else if x > 1.0 then 1.0 else x
  }

  /** Python's `round`: to the nearest integer, ties to the even one. */
  function RoundHalfEven(x: real): int {
    var f := x.Floor;
    var d := x - f as real;
    if d < 0.5 || (d == 0.5 && f % 2 == 0) then f else f + 1
  }

  /** `k` is the integer nearest to `x`, and the even one when two are. */
  predicate Rounds(k: int, x: real) {
    && -0.5 <= k as real - x <= 0.5
    && (k as real - x == 0.5 || k as real - x == -0.5 ==> k % 2 == 0)
  }

  /** There is exactly one such integer, and `round` returns it. */
  lemma RoundsUniquely(k: int, x: real)
    ensures Rounds(k, x) <==> k == RoundHalfEven(x)
  {
    var r := RoundHalfEven(x);
    assert Rounds(r, x);
    if Rounds(k, x) {
      assert -1.0 <= k as real - r as real <= 1.0;
    }
  }

  lemma RoundBounds(x: real, n: nat)
    requires 0.0 <= x <= n as real
    ensures 0 <= RoundHalfEven(x) <= n
    ensures Rounds(RoundHalfEven(x), x)
    ensures x == x.Floor as real ==> RoundHalfEven(x) as real == x
  {
    RoundsUniquely(RoundHalfEven(x), x);
  }

  /** `_n_affected`: the number of elements an intensity touches. */
  function Affected(intensity: real, total: nat): (k: nat)
    ensures k <= total
    ensures intensity <= 0.0 ==> k == 0
    ensures intensity >= 1.0 ==> k == total
    ensures 0.0 <= intensity <= 1.0 ==> Rounds(k, intensity * total as real)
  {
    var share := Clamp01(intensity) * total as real;
    assert 0.0 <= share <= total as real;
    RoundBounds(share, total);
    RoundHalfEven(share)
  }

  datatype Ranked = Ranked(pos: nat, id: string)

  function RankedId(r: Ranked): string { r.id }

  function Labelled(ids: seq<string>): (r: seq<Ranked>)
    ensures |r| == |ids|
    ensures forall i :: 0 <= i < |ids| ==> r[i] == Ranked(i, ids[i])
  {
    seq(|ids|, i requires 0 <= i < |ids| => Ranked(i, ids[i]))
  }

  /** `sorted(range(n), key=lambda i: items[i].id)`. */
  function Ranking(ids: seq<string>): (r: seq<Ranked>) {
    SortBy(Labelled(ids), RankedId, StrLe)
  }

  /** The ranking lists every position once, and reads the ids in sorted order. */
  lemma RankingPermutes(ids: seq<string>)
    ensures |Ranking(ids)| == |ids|
    ensures forall c :: 0 <= c < |ids| ==> Ranking(ids)[c].pos < |ids| && Ranking(ids)[c].id == ids[Ranking(ids)[c].pos]
    ensures forall c, d :: 0 <= c < d < |ids| ==> Ranking(ids)[c].pos != Ranking(ids)[d].pos
    ensures |SortStrings(ids)| == |ids|
    ensures forall c :: 0 <= c < |ids| ==> Ranking(ids)[c].id == SortStrings(ids)[c]
  {
    hide SortBy;
    var r := Ranking(ids);
    SortMultiset(Labelled(ids), RankedId, StrLe);
    assert NoDuplicates(Labelled(ids));
    PermutationNoDuplicates(Labelled(ids), r);
    forall c | 0 <= c < |ids| ensures r[c].pos < |ids| && r[c] == Ranked(r[c].pos, ids[r[c].pos]) {
      SortMember(Labelled(ids), RankedId, StrLe, r[c]);
    }
    forall c, d | 0 <= c < d < |ids| ensures r[c].pos != r[d].pos {
      assert r[c] != r[d];
    }
    SortKeys(Labelled(ids), RankedId, StrLe);
    assert MapSeq(RankedId, Labelled(ids)) == ids;
    assert MapSeq(RankedId, r) == SortStrings(ids);
  }

  /** The position of each rank. */
  function Order(ids: seq<string>): (order: seq<nat>)
    ensures |order| == |ids|
    ensures forall c :: 0 <= c < |order| ==> order[c] < |ids|
  {
    RankingPermutes(ids);
    seq(|ids|, c requires 0 <= c < |ids| => Ranking(ids)[c].pos)
  }

  /** A legal draw of `k` of `n` ranks without replacement (none when `k <= 0`, all when `k >= n`). */
  ghost predicate LegalChoice(chosen: seq<nat>, k: int, n: nat) {
    && NoDuplicates(chosen)
    && (forall i :: 0 <= i < |chosen| ==> chosen[i] < n)
    && |chosen| == (if k <= 0 then 0 else if k < n then k else n)
  }

  /** `_select_indices`: the positions holding the drawn ranks. */
  function Selected(ids: seq<string>, chosen: seq<nat>): set<nat>
    requires forall i :: 0 <= i < |chosen| ==> chosen[i] < |ids|
  {
    RankingPermutes(ids);
    set i | 0 <= i < |chosen| :: Ranking(ids)[chosen[i]].pos
  }

  /** Exactly as many positions are selected as ranks were drawn. */
  lemma SelectedSize(ids: seq<string>, chosen: seq<nat>)
    requires NoDuplicates(chosen) && forall i :: 0 <= i < |chosen| ==> chosen[i] < |ids|
    ensures |Selected(ids, chosen)| == |chosen|
    ensures forall p :: p in Selected(ids, chosen) ==> p < |ids|
  {
    hide Ranking, SortStrings;
    RankingPermutes(ids);
    var ps := seq(|chosen|, i requires 0 <= i < |chosen| => Ranking(ids)[chosen[i]].pos);
    forall i, j | 0 <= i < j < |ps| ensures ps[i] != ps[j] {
      assert chosen[i] != chosen[j];
    }
    var drawn := set i | 0 <= i < |ps| :: ps[i];
    forall p ensures p in drawn <==> p in Selected(ids, chosen) {
      if p in drawn {
        var i :| 0 <= i < |ps| && ps[i] == p;
        assert Ranking(ids)[chosen[i]].pos == p;
      }
      if p in Selected(ids, chosen) {
        var i :| 0 <= i < |chosen| && Ranking(ids)[chosen[i]].pos == p;
        assert ps[i] == p;
      }
    }
    assert drawn == Selected(ids, chosen);
    SetOfDistinct(ps);
  }

  lemma {:induction false} SetOfDistinct(ps: seq<nat>)
    requires NoDuplicates(ps)
    ensures |set i | 0 <= i < |ps| :: ps[i]| == |ps|
  {
    if |ps| > 0 {
      var n := |ps| - 1;
      SetOfDistinct(ps[..n]);
      var front := set i | 0 <= i < n :: ps[..n][i];
      assert (set i | 0 <= i < |ps| :: ps[i]) == front + {ps[n]};
      assert ps[n] !in front;
    }
  }

  /** The ids a draw selects; they depend on the ids present, not on their order. */
  ghost function SelectedIds(ids: seq<string>, chosen: seq<nat>): set<string>
    requires forall i :: 0 <= i < |chosen| ==> chosen[i] < |ids|
  {
    RankingPermutes(ids);
    set i | 0 <= i < |chosen| :: SortStrings(ids)[chosen[i]]
  }

  lemma SelectedById(ids: seq<string>, chosen: seq<nat>, p: nat)
    requires NoDuplicates(ids) && p < |ids|
    requires forall i :: 0 <= i < |chosen| ==> chosen[i] < |ids|
    ensures p in Selected(ids, chosen) <==> ids[p] in SelectedIds(ids, chosen)
  {
    hide Ranking, SortStrings;
    RankingPermutes(ids);
    if ids[p] in SelectedIds(ids, chosen) {
      var i :| 0 <= i < |chosen| && SortStrings(ids)[chosen[i]] == ids[p];
      assert Ranking(ids)[chosen[i]].pos == p;
    }
  }

  /** Reordering a list of distinct ids leaves the same ids selected. */
  lemma SelectionIgnoresOrder(ids: seq<string>, ids': seq<string>, chosen: seq<nat>, p: nat, q: nat)
    requires NoDuplicates(ids) && multiset(ids) == multiset(ids')
    requires forall i :: 0 <= i < |chosen| ==> chosen[i] < |ids|
    requires p < |ids| && q < |ids'| && ids[p] == ids'[q]
    ensures |ids| == |ids'| && NoDuplicates(ids')
    ensures p in Selected(ids, chosen) <==> q in Selected(ids', chosen)
  {
    hide Selected, SelectedIds, Ranking;
    SameLength(ids, ids');
    PermutationNoDuplicates(ids, ids');
    SelectedById(ids, chosen, p);
    SelectedById(ids', chosen, q);
    SameSelectedIds(ids, ids', chosen);
  }

  lemma SameSelectedIds(ids: seq<string>, ids': seq<string>, chosen: seq<nat>)
    requires multiset(ids) == multiset(ids') && |ids| == |ids'|
    requires forall i :: 0 <= i < |chosen| ==> chosen[i] < |ids|
    ensures SelectedIds(ids, chosen) == SelectedIds(ids', chosen)
  {
    hide SortStrings, Ranking;
    SortedStringsUnique(ids, ids');
  }

  // Repeated ids

  /** Every position has a rank. */
  lemma RankOf(ids: seq<string>, p: nat) returns (c: nat)
    requires p < |ids|
    ensures c < |Ranking(ids)| == |ids| && Ranking(ids)[c].pos == p
  {
    hide SortBy;
    RankingPermutes(ids);
    SortMember(Labelled(ids), RankedId, StrLe, Ranked(p, ids[p]));
    assert Labelled(ids)[p] == Ranked(p, ids[p]);
    c :| 0 <= c < |Ranking(ids)| && Ranking(ids)[c] == Ranked(p, ids[p]);
  }

  /** The positions of one id that a draw leaves, and the ranks it leaves. */
  ghost function LeftPositions(ids: seq<string>, chosen: seq<nat>, id: string): set<nat>
    requires forall i :: 0 <= i < |chosen| ==> chosen[i] < |ids|
  {
    set p | 0 <= p < |ids| && ids[p] == id && p !in Selected(ids, chosen)
  }

  ghost function LeftRanks(ids: seq<string>, chosen: seq<nat>, id: string): set<nat> {
    set c | 0 <= c < |SortStrings(ids)| && SortStrings(ids)[c] == id && c !in chosen
  }

  lemma {:induction false} SameSize(a: set<nat>, b: set<nat>, f: seq<nat>)
    requires forall x :: x in a ==> x < |f| && f[x] in b
    requires forall x, y :: x in a && y in a && f[x] == f[y] ==> x == y
    requires forall y :: y in b ==> exists x :: x in a && f[x] == y
    ensures |a| == |b|
  {
    if a == {} {
      assert b == {};
    } else {
      var x :| x in a;
      SameSize(a - {x}, b - {f[x]}, f);
    }
  }

  lemma LeftSelected(ids: seq<string>, chosen: seq<nat>, c: nat)
    requires c < |ids| && forall i :: 0 <= i < |chosen| ==> chosen[i] < |ids|
    ensures Order(ids)[c] in Selected(ids, chosen) <==> c in chosen
  {
    hide Ranking, SortStrings;
    RankingPermutes(ids);
    if Order(ids)[c] in Selected(ids, chosen) {
      var i :| 0 <= i < |chosen| && Ranking(ids)[chosen[i]].pos == Order(ids)[c];
      assert chosen[i] == c;
    }
  }

  /** As many positions as ranks are left of each id. */
  lemma LeftAlike(ids: seq<string>, chosen: seq<nat>, id: string)
    requires forall i :: 0 <= i < |chosen| ==> chosen[i] < |ids|
    ensures |LeftPositions(ids, chosen, id)| == |LeftRanks(ids, chosen, id)|
  {
    hide Ranking, SortStrings, Selected;
    RankingPermutes(ids);
    var order := Order(ids);
    forall c | c in LeftRanks(ids, chosen, id) ensures c < |order| && order[c] in LeftPositions(ids, chosen, id) {
      LeftSelected(ids, chosen, c);
    }
    forall p | p in LeftPositions(ids, chosen, id)
      ensures exists c :: c in LeftRanks(ids, chosen, id) && order[c] == p
    {
      var c := RankOf(ids, p);
      LeftSelected(ids, chosen, c);
      assert order[c] == p;
    }
    SameSize(LeftRanks(ids, chosen, id), LeftPositions(ids, chosen, id), order);
  }

  /** How many positions of an id are left does not depend on the order, even when ids repeat. */
  lemma {:induction false} LeftIgnoresOrder(ids: seq<string>, ids': seq<string>, chosen: seq<nat>, id: string)
    requires multiset(ids) == multiset(ids') && |ids| == |ids'|
    requires forall i :: 0 <= i < |chosen| ==> chosen[i] < |ids|
    ensures |LeftPositions(ids, chosen, id)| == |LeftPositions(ids', chosen, id)|
  {
    hide Selected, SortStrings;
    SortedStringsUnique(ids, ids');
    LeftAlike(ids, chosen, id);
    LeftAlike(ids', chosen, id);
  }
}

/** Order-preserving operations on sequences that several parts of the model share. */
module Sequences {

  datatype Option<+T> = None | Some(value: T)

  /** `dict.fromkeys(values)`, over the first `k` values. */
  function Distinct<V(==, !new)>(values: seq<V>, k: nat): (d: seq<V>)
    requires k <= |values|
    ensures forall v :: v in d <==> v in values[..k]
    ensures k > 0 ==> |d| > 0
  {
    if k == 0 then []
    else
      assert values[..k] == values[..k - 1] + [values[k - 1]];
      var front := Distinct(values, k - 1);
      if values[k - 1] in front then front else front + [values[k - 1]]
  }

  /** The keys of the elements of `xs`. */
  ghost function KeySet<T, K>(xs: seq<T>, key: T -> K): set<K> {
    set i | 0 <= i < |xs| :: key(xs[i])
  }

  ghost predicate DistinctKeys<T(!new), K(!new)>(xs: seq<T>, key: T -> K) {
    forall i, j :: 0 <= i < j < |xs| ==> key(xs[i]) != key(xs[j])
  }

  ghost predicate NoDuplicates<T(!new)>(xs: seq<T>) {
    forall i, j :: 0 <= i < j < |xs| ==> xs[i] != xs[j]
  }

  function Identity<T>(x: T): T { x }

  /** `sum` of the first `k` entries. */
  function Sum(xs: seq<int>, k: nat): int
    requires k <= |xs|
  {
    if k == 0 then 0 else Sum(xs, k - 1) + xs[k - 1]
  }

  lemma {:induction false} SumOfPrefix(xs: seq<int>, ys: seq<int>, k: nat)
    requires k <= |xs| && k <= |ys| && xs[..k] == ys[..k]
    ensures Sum(xs, k) == Sum(ys, k)
  {
    if k > 0 {
      assert xs[k - 1] == xs[..k][k - 1] == ys[..k][k - 1] == ys[k - 1];
      assert xs[..k - 1] == xs[..k][..k - 1] == ys[..k][..k - 1] == ys[..k - 1];
      SumOfPrefix(xs, ys, k - 1);
    }
  }

  lemma SumPush(xs: seq<int>, x: int)
    ensures Sum(xs + [x], |xs| + 1) == Sum(xs, |xs|) + x
  {
    SumOfPrefix(xs + [x], xs, |xs|);
  }

  function MapSeq<A, B>(f: A -> B, xs: seq<A>): (ys: seq<B>)
    ensures |ys| == |xs|
    ensures forall i :: 0 <= i < |xs| ==> ys[i] == f(xs[i])
  {
    seq(|xs|, i requires 0 <= i < |xs| => f(xs[i]))
  }

  /** The elements of `xs` satisfying `p`, in order. */
  ghost function Filter<T(!new)>(xs: seq<T>, p: T -> bool): seq<T> {
    if |xs| == 0 then []
    else Filter(xs[..|xs| - 1], p) + (if p(xs[|xs| - 1]) then [xs[|xs| - 1]] else [])
  }

  /** The elements of `xs` whose key occurs at no earlier position, in order. */
  ghost function FirstOccurrences<T(!new), K(!new)>(xs: seq<T>, key: T -> K): seq<T> {
    if |xs| == 0 then []
    else
      var n := |xs| - 1;
      FirstOccurrences(xs[..n], key) + (if key(xs[n]) in KeySet(xs[..n], key) then [] else [xs[n]])
  }

  ghost function Concat<T>(xss: seq<seq<T>>): seq<T> {
    if |xss| == 0 then [] else Concat(xss[..|xss| - 1]) + xss[|xss| - 1]
  }

  lemma KeySetAppend<T, K>(xs: seq<T>, ys: seq<T>, key: T -> K)
    ensures KeySet(xs + ys, key) == KeySet(xs, key) + KeySet(ys, key)
  {
    forall k | k in KeySet(ys, key) ensures k in KeySet(xs + ys, key) {
      var i :| 0 <= i < |ys| && key(ys[i]) == k;
      assert (xs + ys)[|xs| + i] == ys[i];
    }
    forall k | k in KeySet(xs, key) ensures k in KeySet(xs + ys, key) {
      var i :| 0 <= i < |xs| && key(xs[i]) == k;
      assert (xs + ys)[i] == xs[i];
    }
  }

  lemma KeySetLast<T, K>(xs: seq<T>, key: T -> K)
    requires |xs| > 0
    ensures KeySet(xs, key) == KeySet(xs[..|xs| - 1], key) + {key(xs[|xs| - 1])}
  {
    assert xs == xs[..|xs| - 1] + [xs[|xs| - 1]];
    KeySetAppend(xs[..|xs| - 1], [xs[|xs| - 1]], key);
    assert KeySet([xs[|xs| - 1]], key) == {key(xs[|xs| - 1])} by {
      assert [xs[|xs| - 1]][0] == xs[|xs| - 1];
    }
  }

  lemma {:induction false} FilterAppend<T(!new)>(xs: seq<T>, ys: seq<T>, p: T -> bool)
    ensures Filter(xs + ys, p) == Filter(xs, p) + Filter(ys, p)
  {
    if |ys| == 0 {
      assert xs + ys == xs;
    } else {
      var n := |ys| - 1;
      assert (xs + ys)[..|xs + ys| - 1] == xs + ys[..n];
      FilterAppend(xs, ys[..n], p);
    }
  }

  lemma {:induction false} FilterMember<T(!new)>(xs: seq<T>, p: T -> bool, x: T)
    ensures x in Filter(xs, p) <==> x in xs && p(x)
  {
    if |xs| > 0 {
      var n := |xs| - 1;
      FilterMember(xs[..n], p, x);
      assert xs == xs[..n] + [xs[n]];
    }
  }

  lemma {:induction false} FirstOccurrencesKeys<T(!new), K(!new)>(xs: seq<T>, key: T -> K)
    ensures DistinctKeys(FirstOccurrences(xs, key), key)
    ensures KeySet(FirstOccurrences(xs, key), key) == KeySet(xs, key)
  {
    if |xs| > 0 {
      var n := |xs| - 1;
      FirstOccurrencesKeys(xs[..n], key);
      var front := FirstOccurrences(xs[..n], key);
      KeySetLast(xs, key);
      if key(xs[n]) in KeySet(xs[..n], key) {
        assert FirstOccurrences(xs, key) == front;
      } else {
        assert FirstOccurrences(xs, key) == front + [xs[n]];
        KeySetLast(front + [xs[n]], key);
        assert (front + [xs[n]])[..|front|] == front;
        forall i | 0 <= i < |front| ensures key(front[i]) != key(xs[n]) {
          assert key(front[i]) in KeySet(front, key);
        }
      }
    }
  }

  /** The survivor of each key is its earliest holder. */
  lemma {:induction false} FirstOccurrencesMember<T(!new), K(!new)>(xs: seq<T>, key: T -> K, x: T)
    ensures x in FirstOccurrences(xs, key)
       <==> exists i :: 0 <= i < |xs| && xs[i] == x && key(x) !in KeySet(xs[..i], key)
  {
    if |xs| > 0 {
      var n := |xs| - 1;
      FirstOccurrencesMember(xs[..n], key, x);
      forall i | 0 <= i < n ensures xs[..n][..i] == xs[..i] {}
      if x in FirstOccurrences(xs, key) {
        if x in FirstOccurrences(xs[..n], key) {
          var i :| 0 <= i < n && xs[..n][i] == x && key(x) !in KeySet(xs[..n][..i], key);
          assert xs[i] == x && key(x) !in KeySet(xs[..i], key);
        } else {
          assert xs[n] == x && key(x) !in KeySet(xs[..n], key);
        }
      }
      if i :| 0 <= i < |xs| && xs[i] == x && key(x) !in KeySet(xs[..i], key) {
        if i < n {
          assert xs[..n][i] == x && key(x) !in KeySet(xs[..n][..i], key);
        }
      }
    }
  }

  lemma {:induction false} FirstOccurrencesPrefix<T(!new), K(!new)>(xs: seq<T>, ys: seq<T>, key: T -> K)
    ensures FirstOccurrences(xs, key) <= FirstOccurrences(xs + ys, key)
  {
    if |ys| == 0 {
      assert xs + ys == xs;
    } else {
      var n := |ys| - 1;
      assert (xs + ys)[..|xs + ys| - 1] == xs + ys[..n];
      FirstOccurrencesPrefix(xs, ys[..n], key);
    }
  }

  lemma {:induction false} FirstOccurrencesOfDistinct<T(!new), K(!new)>(xs: seq<T>, key: T -> K)
    requires DistinctKeys(xs, key)
    ensures FirstOccurrences(xs, key) == xs
  {
    if |xs| > 0 {
      var n := |xs| - 1;
      FirstOccurrencesOfDistinct(xs[..n], key);
      assert xs == xs[..n] + [xs[n]];
    }
  }

  lemma SameLength<T>(xs: seq<T>, ys: seq<T>)
    requires multiset(xs) == multiset(ys)
    ensures |xs| == |ys|
  {
    assert |multiset(xs)| == |xs| && |multiset(ys)| == |ys|;
  }

  /** Mapping preserves equality of multisets. */
  lemma {:induction false} MappedMultiset<A(!new), B(!new)>(xs: seq<A>, ys: seq<A>, f: A -> B)
    requires multiset(xs) == multiset(ys)
    ensures multiset(MapSeq(f, xs)) == multiset(MapSeq(f, ys))
  {
    SameLength(xs, ys);
    if |xs| > 0 {
      var n := |xs| - 1;
      assert xs[n] in multiset(ys);
      var i :| 0 <= i < |ys| && ys[i] == xs[n];
      MappedRemove(xs, n, f);
      MappedRemove(ys, i, f);
      MappedMultiset(Removed(xs, n), Removed(ys, i), f);
    } else {
      assert xs == [] && ys == [];
    }
  }

  ghost function Removed<A>(xs: seq<A>, i: nat): (ys: seq<A>)
    requires i < |xs|
    ensures |ys| == |xs| - 1
  {
    xs[..i] + xs[i + 1..]
  }

  lemma MappedRemove<A(!new), B(!new)>(xs: seq<A>, i: nat, f: A -> B)
    requires i < |xs|
    ensures multiset(Removed(xs, i)) == multiset(xs) - multiset{xs[i]}
    ensures multiset(MapSeq(f, xs)) == multiset(MapSeq(f, Removed(xs, i))) + multiset{f(xs[i])}
  {
    assert xs == xs[..i] + [xs[i]] + xs[i + 1..];
    var front, back := MapSeq(f, xs[..i]), MapSeq(f, xs[i + 1..]);
    assert MapSeq(f, xs) == front + [f(xs[i])] + back;
    assert MapSeq(f, Removed(xs, i)) == front + back;
  }

  lemma SmallerSet<T>(a: set<T>, b: set<T>)
    requires a <= b
    ensures |a| <= |b|
    ensures |a| == |b| ==> a == b
  {
    assert b == a + (b - a);
  }
}

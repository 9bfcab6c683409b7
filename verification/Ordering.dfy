/** Stable sorting as Python's `sorted(xs, key=...)` performs it, and the order on strings. */
module Ordering {
  import opened Sequences

  /** Code-point order, as Python compares `str` values. */
  predicate StrLe(a: string, b: string) {
    |a| == 0 || (|b| > 0 && (a[0] < b[0] || (a[0] == b[0] && StrLe(a[1..], b[1..]))))
  }

  predicate IntLe(a: int, b: int) { a <= b }

  ghost predicate Total<K(!new)>(le: (K, K) -> bool) {
    forall a, b :: le(a, b) || le(b, a)
  }

  ghost predicate Antisymmetric<K(!new)>(le: (K, K) -> bool) {
    forall a, b :: le(a, b) && le(b, a) ==> a == b
  }

  ghost predicate Transitive<K(!new)>(le: (K, K) -> bool) {
    forall a, b, c :: le(a, b) && le(b, c) ==> le(a, c)
  }

  ghost predicate TotalOrder<K(!new)>(le: (K, K) -> bool) {
    Total(le) && Antisymmetric(le) && Transitive(le)
  }

  lemma {:induction false} StrLeTotal(a: string, b: string)
    ensures StrLe(a, b) || StrLe(b, a)
    ensures StrLe(a, b) && StrLe(b, a) ==> a == b
  {
    if |a| > 0 && |b| > 0 && a[0] == b[0] {
      StrLeTotal(a[1..], b[1..]);
      assert a == [a[0]] + a[1..] && b == [b[0]] + b[1..];
    }
  }

  lemma {:induction false} StrLeTransitive(a: string, b: string, c: string)
    requires StrLe(a, b) && StrLe(b, c)
    ensures StrLe(a, c)
  {
    if |a| > 0 && a[0] == b[0] && b[0] == c[0] {
      StrLeTransitive(a[1..], b[1..], c[1..]);
    }
  }

  /** The first place where two texts differ, or the end of the shorter. */
  ghost predicate AgreeTo(a: string, b: string, k: nat) { k <= |a| && k <= |b| && a[..k] == b[..k] }

  /** Texts compare by the code points at their first difference, and a text comes after its prefixes. */
  lemma {:induction false} StrLeAtDifference(a: string, b: string, k: nat)
    requires AgreeTo(a, b, k)
    ensures k == |a| ==> StrLe(a, b)
    ensures k == |b| < |a| ==> !StrLe(a, b)
    ensures k < |a| && k < |b| && a[k] != b[k] ==> (StrLe(a, b) <==> a[k] < b[k])
  {
    if k > 0 {
      assert a[0] == a[..k][0] == b[..k][0] == b[0];
      assert a[1..][..k - 1] == a[..k][1..] && b[1..][..k - 1] == b[..k][1..];
      StrLeAtDifference(a[1..], b[1..], k - 1);
    }
  }

  lemma StrLeIsTotalOrder()
    ensures TotalOrder(StrLe)
  {
    forall a, b ensures StrLe(a, b) || StrLe(b, a) { StrLeTotal(a, b); }
    forall a, b | StrLe(a, b) && StrLe(b, a) ensures a == b { StrLeTotal(a, b); }
    forall a, b, c | StrLe(a, b) && StrLe(b, c) ensures StrLe(a, c) { StrLeTransitive(a, b, c); }
  }

  /** Inserts `x` after every element it does not precede. */
  function Insert<T, K>(xs: seq<T>, x: T, key: T -> K, le: (K, K) -> bool): seq<T> {
    if |xs| == 0 || le(key(xs[|xs| - 1]), key(x)) then xs + [x]
    else Insert(xs[..|xs| - 1], x, key, le) + [xs[|xs| - 1]]
  }

  function SortBy<T, K>(xs: seq<T>, key: T -> K, le: (K, K) -> bool): seq<T> {
    if |xs| == 0 then []
    else Insert(SortBy(xs[..|xs| - 1], key, le), xs[|xs| - 1], key, le)
  }

  ghost predicate SortedBy<T, K>(xs: seq<T>, key: T -> K, le: (K, K) -> bool) {
    forall i, j :: 0 <= i < j < |xs| ==> le(key(xs[i]), key(xs[j]))
  }

  function SortStrings(xs: seq<string>): seq<string> {
    SortBy(xs, Identity, StrLe)
  }

  lemma {:induction false} InsertMultiset<T, K>(xs: seq<T>, x: T, key: T -> K, le: (K, K) -> bool)
    ensures multiset(Insert(xs, x, key, le)) == multiset(xs) + multiset{x}
  {
    if !(|xs| == 0 || le(key(xs[|xs| - 1]), key(x))) {
      InsertMultiset(xs[..|xs| - 1], x, key, le);
      assert xs == xs[..|xs| - 1] + [xs[|xs| - 1]];
    }
  }

  lemma {:induction false} SortMultiset<T, K>(xs: seq<T>, key: T -> K, le: (K, K) -> bool)
    ensures multiset(SortBy(xs, key, le)) == multiset(xs)
    ensures |SortBy(xs, key, le)| == |xs|
  {
    if |xs| > 0 {
      SortMultiset(xs[..|xs| - 1], key, le);
      InsertMultiset(SortBy(xs[..|xs| - 1], key, le), xs[|xs| - 1], key, le);
      assert xs == xs[..|xs| - 1] + [xs[|xs| - 1]];
    }
    assert |multiset(SortBy(xs, key, le))| == |multiset(xs)|;
  }

  lemma SortMember<T, K>(xs: seq<T>, key: T -> K, le: (K, K) -> bool, x: T)
    ensures x in SortBy(xs, key, le) <==> x in xs
  {
    SortMultiset(xs, key, le);
    assert x in SortBy(xs, key, le) <==> x in multiset(SortBy(xs, key, le));
    assert x in xs <==> x in multiset(xs);
  }

  lemma {:induction false} InsertSorted<T(!new), K(!new)>(xs: seq<T>, x: T, key: T -> K, le: (K, K) -> bool)
    requires TotalOrder(le) && SortedBy(xs, key, le)
    ensures SortedBy(Insert(xs, x, key, le), key, le)
  {
    if |xs| == 0 || le(key(xs[|xs| - 1]), key(x)) {
    } else {
      var front := xs[..|xs| - 1];
      var last := xs[|xs| - 1];
      InsertSorted(front, x, key, le);
      var ys := Insert(front, x, key, le);
      InsertMultiset(front, x, key, le);
      forall i | 0 <= i < |ys| ensures le(key(ys[i]), key(last)) {
        assert ys[i] in multiset(ys);
        assert ys[i] in multiset(front) || ys[i] == x;
        if ys[i] in multiset(front) {
          assert ys[i] in front;
          var j :| 0 <= j < |front| && front[j] == ys[i];
          assert le(key(xs[j]), key(xs[|xs| - 1]));
        }
      }
    }
  }

  lemma {:induction false} SortIsSorted<T(!new), K(!new)>(xs: seq<T>, key: T -> K, le: (K, K) -> bool)
    requires TotalOrder(le)
    ensures SortedBy(SortBy(xs, key, le), key, le)
  {
    if |xs| > 0 {
      SortIsSorted(xs[..|xs| - 1], key, le);
      InsertSorted(SortBy(xs[..|xs| - 1], key, le), xs[|xs| - 1], key, le);
    }
  }

  /** A list already in order is left alone. */
  lemma {:induction false} SortOfSorted<T(!new), K(!new)>(xs: seq<T>, key: T -> K, le: (K, K) -> bool)
    requires SortedBy(xs, key, le)
    ensures SortBy(xs, key, le) == xs
  {
    if |xs| > 0 {
      var front := xs[..|xs| - 1];
      SortOfSorted(front, key, le);
      assert xs == front + [xs[|xs| - 1]];
      assert |front| > 0 ==> le(key(xs[|front| - 1]), key(xs[|xs| - 1]));
    }
  }

  /** Sorted arrangements of one multiset coincide when equal keys mean equal elements. */
  lemma {:induction false} SortedUnique<K(!new)>(xs: seq<K>, ys: seq<K>, le: (K, K) -> bool)
    requires Total(le) && Antisymmetric(le)
    requires SortedBy(xs, Identity, le) && SortedBy(ys, Identity, le)
    requires multiset(xs) == multiset(ys)
    ensures xs == ys
  {
    hide SortedBy;
    assert |multiset(xs)| == |xs| && |multiset(ys)| == |ys|;
    if |xs| > 0 {
      var n := |xs| - 1;
      SameLast(xs, ys, le);
      DropLast(xs);
      DropLast(ys);
      SortedFront(xs, le);
      SortedFront(ys, le);
      SortedUnique(xs[..n], ys[..n], le);
      Rejoin(xs, ys);
    }
  }

  lemma SortedFront<K(!new)>(xs: seq<K>, le: (K, K) -> bool)
    requires |xs| > 0 && SortedBy(xs, Identity, le)
    ensures SortedBy(xs[..|xs| - 1], Identity, le)
  {
    var front := xs[..|xs| - 1];
    forall i, j | 0 <= i < j < |front| ensures le(Identity(front[i]), Identity(front[j])) {
      assert le(Identity(xs[i]), Identity(xs[j]));
    }
  }

  lemma Rejoin<K>(xs: seq<K>, ys: seq<K>)
    requires |xs| == |ys| > 0
    requires xs[..|xs| - 1] == ys[..|ys| - 1] && xs[|xs| - 1] == ys[|ys| - 1]
    ensures xs == ys
  {
    assert xs == xs[..|xs| - 1] + [xs[|xs| - 1]];
    assert ys == ys[..|ys| - 1] + [ys[|ys| - 1]];
  }

  lemma DropLast<K>(xs: seq<K>)
    requires |xs| > 0
    ensures multiset(xs[..|xs| - 1]) == multiset(xs) - multiset{xs[|xs| - 1]}
  {
    assert xs == xs[..|xs| - 1] + [xs[|xs| - 1]];
  }

  lemma SameLast<K(!new)>(xs: seq<K>, ys: seq<K>, le: (K, K) -> bool)
    requires Total(le) && Antisymmetric(le)
    requires SortedBy(xs, Identity, le) && SortedBy(ys, Identity, le)
    requires multiset(xs) == multiset(ys) && |xs| == |ys| > 0
    ensures xs[|xs| - 1] == ys[|ys| - 1]
  {
    var a, b := xs[|xs| - 1], ys[|ys| - 1];
    assert a in multiset(ys) && b in multiset(xs);
    LastDominates(ys, le, a);
    LastDominates(xs, le, b);
  }

  lemma LastDominates<K(!new)>(xs: seq<K>, le: (K, K) -> bool, x: K)
    requires Total(le) && SortedBy(xs, Identity, le) && x in xs
    ensures le(x, xs[|xs| - 1])
  {
    var i :| 0 <= i < |xs| && xs[i] == x;
    if i < |xs| - 1 {
      assert le(Identity(xs[i]), Identity(xs[|xs| - 1]));
    }
  }

  lemma SortedStringsUnique(xs: seq<string>, ys: seq<string>)
    requires multiset(xs) == multiset(ys)
    ensures SortStrings(xs) == SortStrings(ys)
  {
    StrLeIsTotalOrder();
    SortIsSorted(xs, Identity, StrLe);
    SortIsSorted(ys, Identity, StrLe);
    SortMultiset(xs, Identity, StrLe);
    SortMultiset(ys, Identity, StrLe);
    SortedUnique(SortStrings(xs), SortStrings(ys), StrLe);
  }

  /** Sorting by a key and then reading the keys is sorting the keys. */
  lemma {:induction false} SortKeys<T, K>(xs: seq<T>, key: T -> K, le: (K, K) -> bool)
    ensures MapSeq(key, SortBy(xs, key, le)) == SortBy(MapSeq(key, xs), Identity, le)
  {
    if |xs| > 0 {
      var front := xs[..|xs| - 1];
      SortKeys(front, key, le);
      InsertKeys(SortBy(front, key, le), xs[|xs| - 1], key, le);
      assert MapSeq(key, xs)[..|xs| - 1] == MapSeq(key, front);
    }
  }

  lemma {:induction false} InsertKeys<T, K>(xs: seq<T>, x: T, key: T -> K, le: (K, K) -> bool)
    ensures MapSeq(key, Insert(xs, x, key, le)) == Insert(MapSeq(key, xs), key(x), Identity, le)
  {
    if !(|xs| == 0 || le(key(xs[|xs| - 1]), key(x))) {
      InsertKeys(xs[..|xs| - 1], x, key, le);
      assert MapSeq(key, xs)[..|xs| - 1] == MapSeq(key, xs[..|xs| - 1]);
    }
  }

  lemma NoDuplicatesMultiset<T(!new)>(xs: seq<T>)
    ensures NoDuplicates(xs) <==> forall x :: multiset(xs)[x] <= 1
  {
    if NoDuplicates(xs) {
      forall x ensures multiset(xs)[x] <= 1 { AtMostOnce(xs, x); }
    } else {
      var i, j :| 0 <= i < j < |xs| && xs[i] == xs[j];
      assert xs == xs[..j] + [xs[j]] + xs[j + 1..];
      assert xs[i] in xs[..j];
      assert multiset(xs)[xs[j]] >= 2;
    }
  }

  lemma {:induction false} AtMostOnce<T(!new)>(xs: seq<T>, x: T)
    requires NoDuplicates(xs)
    ensures multiset(xs)[x] <= 1
  {
    if |xs| > 0 {
      var n := |xs| - 1;
      AtMostOnce(xs[..n], x);
      assert xs == xs[..n] + [xs[n]];
      assert xs[n] == x ==> x !in xs[..n];
    }
  }

  lemma PermutationNoDuplicates<T(!new)>(xs: seq<T>, ys: seq<T>)
    requires multiset(xs) == multiset(ys) && NoDuplicates(xs)
    ensures NoDuplicates(ys)
  {
    NoDuplicatesMultiset(xs);
    NoDuplicatesMultiset(ys);
  }

  /** `sorted(set(xs))`. */
  function SortedSet(xs: seq<string>, k: nat): seq<string>
    requires k <= |xs|
  {
    if k == 0 then []
    else
      var front := SortedSet(xs, k - 1);
      if xs[k - 1] in front then front else Insert(front, xs[k - 1], Identity, StrLe)
  }

  lemma {:induction false} SortedSetExact(xs: seq<string>, k: nat)
    requires k <= |xs|
    ensures SortedBy(SortedSet(xs, k), Identity, StrLe) && NoDuplicates(SortedSet(xs, k))
    ensures forall x :: x in SortedSet(xs, k) <==> x in xs[..k]
  {
    hide StrLe;
    if k > 0 {
      SortedSetExact(xs, k - 1);
      StrLeIsTotalOrder();
      var front, x := SortedSet(xs, k - 1), xs[k - 1];
      assert xs[..k] == xs[..k - 1] + [x];
      if x !in front {
        InsertSorted(front, x, Identity, StrLe);
        InsertFresh(front, x);
      }
    }
  }

  lemma InsertFresh(front: seq<string>, x: string)
    requires NoDuplicates(front) && x !in front
    ensures NoDuplicates(Insert(front, x, Identity, StrLe))
    ensures forall y :: y in Insert(front, x, Identity, StrLe) <==> y in front || y == x
  {
    hide StrLe;
    InsertMultiset(front, x, Identity, StrLe);
    var longer := Insert(front, x, Identity, StrLe);
    forall y ensures y in longer <==> y in front || y == x {
      assert y in longer <==> y in multiset(longer);
      assert y in front <==> y in multiset(front);
    }
    assert multiset(longer) == multiset(front + [x]);
    PermutationNoDuplicates(front + [x], longer);
  }

  lemma DistinctRearranged<T(!new)>(xs: seq<T>, ys: seq<T>, key: T -> string)
    requires multiset(xs) == multiset(ys) && DistinctKeys(xs, key)
    ensures DistinctKeys(ys, key) && NoDuplicates(MapSeq(key, xs)) && NoDuplicates(MapSeq(key, ys))
  {
    MappedMultiset(xs, ys, key);
    PermutationNoDuplicates(MapSeq(key, xs), MapSeq(key, ys));
    var ks := MapSeq(key, ys);
    forall i, j | 0 <= i < j < |ys| ensures key(ys[i]) != key(ys[j]) { assert ks[i] != ks[j]; }
  }

  // Stability

  ghost function Bears<T, K(!new)>(key: T -> K, k: K): T -> bool { (x: T) => key(x) == k }

  lemma {:induction false} InsertStable<T(!new), K(!new)>(xs: seq<T>, x: T, key: T -> K, le: (K, K) -> bool, k: K)
    requires Total(le)
    ensures Filter(Insert(xs, x, key, le), Bears(key, k)) == Filter(xs + [x], Bears(key, k))
  {
    var keep := Bears(key, k);
    assert (xs + [x])[..|xs|] == xs;
    if |xs| > 0 && !le(key(xs[|xs| - 1]), key(x)) {
      var front, last := xs[..|xs| - 1], xs[|xs| - 1];
      InsertStable(front, x, key, le, k);
      assert (front + [x])[..|front|] == front;
      var ys := Insert(front, x, key, le);
      assert (ys + [last])[..|ys|] == ys;
      assert le(key(x), key(x));
    }
  }

  /** Elements of one key keep their order. */
  lemma {:induction false} SortStable<T(!new), K(!new)>(xs: seq<T>, key: T -> K, le: (K, K) -> bool, k: K)
    requires Total(le)
    ensures Filter(SortBy(xs, key, le), Bears(key, k)) == Filter(xs, Bears(key, k))
  {
    hide Bears;
    if |xs| > 0 {
      var front := xs[..|xs| - 1];
      var sorted := SortBy(front, key, le);
      SortStable(front, key, le, k);
      InsertStable(sorted, xs[|xs| - 1], key, le, k);
      assert (sorted + [xs[|xs| - 1]])[..|sorted|] == sorted;
    }
  }
}

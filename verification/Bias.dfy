/** Row resampling: over-representing one value of one column while keeping rows whole. */
module Bias {
  import opened Sequences
  import opened Arithmetic
  import Selection

  /** Columns are keyed by name, so no name occurs twice. */
  datatype Column<V> = Column(name: string, cells: seq<V>)

  datatype Params = Params(field: Option<string>, targetValue: Option<string>, ratio: real)

  /** What a favoured row carries: a value with a given text, or the column's most frequent value. */
  datatype Target<V> = Shown(text: string) | Exactly(value: V)

  /** `BadSize` is the error a sample of negative size raises. */
  datatype Reindex = Order(rows: seq<nat>) | BadSize

  ghost predicate IsTable<V>(cols: seq<Column<V>>, n: nat) {
    |cols| > 0 && n > 0 && forall c :: c in cols ==> |c.cells| == n
  }

  function ColumnNamed<V>(cols: seq<Column<V>>, name: string, k: nat): (c: nat)
    requires k <= |cols| && |cols| > 0
    ensures c < |cols|
  {
    if k == 0 then 0 else if cols[k - 1].name == name then k - 1 else ColumnNamed(cols, name, k - 1)
  }

  /** The parameter's field, else the first target field, else the first column; an unknown name is the first column. */
  function ChosenColumn<V>(params: Params, targetFields: seq<string>, cols: seq<Column<V>>): (c: nat)
    requires |cols| > 0
    ensures c < |cols|
  {
    if params.field.Some? && params.field.value != "" then ColumnNamed(cols, params.field.value, |cols|)
    else if |targetFields| > 0 then ColumnNamed(cols, targetFields[0], |cols|)
    else 0
  }

  lemma {:induction false} ColumnFound<V>(cols: seq<Column<V>>, name: string, k: nat, i: nat)
    requires i < k <= |cols| && cols[i].name == name
    requires forall j :: 0 <= j < k && j != i ==> cols[j].name != name
    ensures ColumnNamed(cols, name, k) == i
  {
    if i < k - 1 { ColumnFound(cols, name, k - 1, i); }
  }

  lemma {:induction false} ColumnMissing<V>(cols: seq<Column<V>>, name: string, k: nat)
    requires k <= |cols| && |cols| > 0 && forall j :: 0 <= j < k ==> cols[j].name != name
    ensures ColumnNamed(cols, name, k) == 0
  {
    if k > 0 { ColumnMissing(cols, name, k - 1); }
  }

  /**
   * With distinct column names the named column is the chosen one: the parameter's field unless it is empty, then the
   * first target field; the first column when there is neither or no column has the name.
   */
  lemma ColumnChosen<V>(params: Params, targetFields: seq<string>, cols: seq<Column<V>>, name: string)
    requires |cols| > 0 && forall i, j :: 0 <= i < j < |cols| ==> cols[i].name != cols[j].name
    requires if params.field.Some? && params.field.value != "" then name == params.field.value
             else |targetFields| > 0 && name == targetFields[0]
    ensures forall i :: 0 <= i < |cols| && cols[i].name == name ==> ChosenColumn(params, targetFields, cols) == i
    ensures (forall i :: 0 <= i < |cols| ==> cols[i].name != name) ==> ChosenColumn(params, targetFields, cols) == 0
  {
    forall i | 0 <= i < |cols| && cols[i].name == name ensures ColumnNamed(cols, name, |cols|) == i {
      ColumnFound(cols, name, |cols|, i);
    }
    if forall i :: 0 <= i < |cols| ==> cols[i].name != name { ColumnMissing(cols, name, |cols|); }
  }

  /** The candidates for the most frequent value stand in the order of their first occurrences. */
  lemma {:induction false} DistinctInOrder<V(!new)>(values: seq<V>, k: nat)
    requires k <= |values|
    ensures Distinct(values, k) == FirstOccurrences(values[..k], Identity)
  {
    if k > 0 {
      DistinctInOrder(values, k - 1);
      assert values[..k][..k - 1] == values[..k - 1];
      assert values[k - 1] in Distinct(values, k - 1) <==>
             Identity(values[k - 1]) in KeySet(values[..k - 1], Identity)
      by {
        if values[k - 1] in values[..k - 1] {
          var i :| 0 <= i < k - 1 && values[..k - 1][i] == values[k - 1];
          assert Identity(values[..k - 1][i]) == values[k - 1];
        }
      }
    } else {
      assert values[..0] == [];
    }
  }

  function Count<V(==, !new)>(values: seq<V>, v: V): nat {
    multiset(values)[v]
  }

  /** `max(counts, key=counts.get)`: the first of the first `k` candidates with the highest count. */
  function Top<V(==, !new)>(candidates: seq<V>, values: seq<V>, k: nat): V
    requires 0 < k <= |candidates|
  {
    if k == 1 then candidates[0]
    else
      var best := Top(candidates, values, k - 1);
      if Count(values, candidates[k - 1]) > Count(values, best) then candidates[k - 1] else best
  }

  ghost predicate FirstMaximum<V(!new)>(candidates: seq<V>, values: seq<V>, k: nat, t: nat) {
    && t < k <= |candidates|
    && (forall i :: 0 <= i < k ==> Count(values, candidates[i]) <= Count(values, candidates[t]))
    && (forall i :: 0 <= i < t ==> Count(values, candidates[i]) < Count(values, candidates[t]))
  }

  lemma {:induction false} TopIsFirstMaximum<V(!new)>(candidates: seq<V>, values: seq<V>, k: nat) returns (t: nat)
    requires 0 < k <= |candidates|
    ensures FirstMaximum(candidates, values, k, t) && candidates[t] == Top(candidates, values, k)
  {
    hide Count;
    if k == 1 {
      t := 0;
    } else {
      t := TopIsFirstMaximum(candidates, values, k - 1);
      if Count(values, candidates[k - 1]) > Count(values, candidates[t]) {
        t := k - 1;
      }
    }
  }

  function ChosenTarget<V(==, !new)>(params: Params, values: seq<V>): Target<V>
    requires |values| > 0
  {
    if params.targetValue.Some? then Shown(params.targetValue.value)
    else Exactly(Top(Distinct(values, |values|), values, |Distinct(values, |values|)|))
  }

  predicate Carries<V(==, !new)>(v: V, target: Target<V>, show: V -> string) {
    match target
    case Shown(text) => show(v) == text
    case Exactly(value) => v == value
  }

  function CarriesAt<V(==, !new)>(values: seq<V>, target: Target<V>, show: V -> string): nat -> bool {
    (i: nat) => i < |values| && Carries(values[i], target, show)
  }

  /** The positions below `k` that carry the target, or those that do not. */
  function Where<V(==, !new)>(values: seq<V>, target: Target<V>, show: V -> string, carrying: bool,
                   k: nat): (r: seq<nat>)
    requires k <= |values|
    ensures forall i: nat :: i in r <==> i < k && CarriesAt(values, target, show)(i) == carrying
  {
    if k == 0 then []
    else
      Where(values, target, show, carrying, k - 1) +
      (if CarriesAt(values, target, show)(k - 1) == carrying then [k - 1] else [])
  }

  function Iota(n: nat): (r: seq<nat>)
    ensures |r| == n && forall i :: 0 <= i < n ==> r[i] == i
  {
    seq(n, i requires 0 <= i < n => i)
  }

  /** `rng.choice(pool, size, replace=True)` for arbitrary draws. */
  function Draw(pool: seq<nat>, draws: nat -> nat, size: nat): (r: seq<nat>)
    requires |pool| > 0
    ensures |r| == size
    ensures forall i :: 0 <= i < size ==> r[i] in pool
  {
    seq(size, i requires 0 <= i < size => pool[draws(i) % |pool|])
  }

  function Swapped<T>(xs: seq<T>, i: nat, j: nat): seq<T>
    requires i < |xs| && j < |xs|
  {
    xs[i := xs[j]][j := xs[i]]
  }

  /** The shuffle from position `i` downwards: each position swaps with one at or below it. */
  function Shuffled<T>(xs: seq<T>, draws: nat -> nat, i: nat): seq<T>
    requires i < |xs| || i == 0
    decreases i
  {
    if i == 0 then xs else Shuffled(Swapped(xs, i, draws(i) % (i + 1)), draws, i - 1)
  }

  method Shuffle<T>(a: array<T>, draws: nat -> nat)
    modifies a
    ensures a[..] == Shuffled(old(a[..]), draws, if a.Length == 0 then 0 else a.Length - 1)
  {
    var i := if a.Length == 0 then 0 else a.Length - 1;
    while i > 0
      invariant 0 <= i && (i < a.Length || i == 0)
      invariant Shuffled(a[..], draws, i) == Shuffled(old(a[..]), draws, if a.Length == 0 then 0 else a.Length - 1)
    {
      var j := draws(i) % (i + 1);
      ghost var before := a[..];
      a[i], a[j] := a[j], a[i];
      assert a[..] == Swapped(before, i, j);
      i := i - 1;
    }
  }

  /** Fewer than two values, or a target that is everywhere or nowhere, leaves the rows as they are. */
  predicate Degenerate<V(==, !new)>(values: seq<V>, target: Target<V>, show: V -> string) {
    || |Distinct(values, |values|)| < 2
    || Where(values, target, show, true, |values|) == []
    || Where(values, target, show, false, |values|) == []
  }

  function Portion(params: Params, n: nat): real { params.ratio * n as real }

  function Wanted(params: Params, n: nat): int { Selection.RoundHalfEven(Portion(params, n)) }

  function Drawn<V(==, !new)>(values: seq<V>, target: Target<V>, show: V -> string, wanted: nat,
                        favoured: nat -> nat, others: nat -> nat): (r: seq<nat>)
    requires !Degenerate(values, target, show) && wanted <= |values|
    ensures |r| == |values|
  {
    Draw(Where(values, target, show, true, |values|), favoured, wanted) +
    Draw(Where(values, target, show, false, |values|), others, |values| - wanted)
  }

  function Resampling<V(==, !new)>(params: Params, targetFields: seq<string>, cols: seq<Column<V>>, show: V -> string,
                             favoured: nat -> nat, others: nat -> nat, swaps: nat -> nat): Reindex
    requires |cols| > 0 && |cols[ChosenColumn(params, targetFields, cols)].cells| > 0
  {
    var values := cols[ChosenColumn(params, targetFields, cols)].cells;
    var target := ChosenTarget(params, values);
    var wanted := Wanted(params, |values|);
    if Degenerate(values, target, show) then Order(Iota(|values|))
    else if wanted < 0 || wanted > |values| then BadSize
    else
      var drawn := Drawn(values, target, show, wanted, favoured, others);
      Order(Shuffled(drawn, swaps, |drawn| - 1))
  }

  method BiasReindex<V(==, !new)>(params: Params, targetFields: seq<string>, cols: seq<Column<V>>, n: nat,
                       show: V -> string,
                            favoured: nat -> nat, others: nat -> nat, swaps: nat -> nat) returns (r: Reindex)
    requires IsTable(cols, n)
    ensures r == Resampling(params, targetFields, cols, show, favoured, others, swaps)
  {
    hide Degenerate, Drawn, Shuffled, ChosenTarget, ChosenColumn, Selection.RoundHalfEven;
    var values := cols[ChosenColumn(params, targetFields, cols)].cells;
    assert cols[ChosenColumn(params, targetFields, cols)] in cols;
    var target := ChosenTarget(params, values);
    if Degenerate(values, target, show) {
      return Order(Iota(n));
    }
    var wanted := Wanted(params, n);
    if wanted < 0 || n - wanted < 0 {
      return BadSize;
    }
    var drawn := Drawn(values, target, show, wanted, favoured, others);
    var order := new nat[|drawn|](i requires 0 <= i < |drawn| => drawn[i]);
    assert order[..] == drawn;
    Shuffle(order, swaps);
    return Order(order[..]);
  }

  lemma SwapKeeps<T>(xs: seq<T>, i: nat, j: nat)
    requires i < |xs| && j < |xs|
    ensures multiset(Swapped(xs, i, j)) == multiset(xs)
  {
  }

  lemma {:induction false} ShuffleKeeps<T>(xs: seq<T>, draws: nat -> nat, i: nat)
    requires i < |xs| || i == 0
    ensures multiset(Shuffled(xs, draws, i)) == multiset(xs)
    decreases i
  {
    hide Swapped;
    if i > 0 {
      SwapKeeps(xs, i, draws(i) % (i + 1));
      SameLength(xs, Swapped(xs, i, draws(i) % (i + 1)));
      ShuffleKeeps(Swapped(xs, i, draws(i) % (i + 1)), draws, i - 1);
    }
  }

  // Every order can be drawn

  /** The shuffle from `i` downwards reads only the draws at `1..i`. */
  lemma {:induction false} SameShuffle<T>(xs: seq<T>, draws: nat -> nat, other: nat -> nat, i: nat)
    requires i < |xs| || i == 0
    requires forall t :: 0 < t <= i ==> draws(t) == other(t)
    ensures Shuffled(xs, draws, i) == Shuffled(xs, other, i)
    decreases i
  {
    hide Swapped;
    if i > 0 {
      SwapKeeps(xs, i, draws(i) % (i + 1));
      SameLength(xs, Swapped(xs, i, draws(i) % (i + 1)));
      SameShuffle(Swapped(xs, i, draws(i) % (i + 1)), draws, other, i - 1);
    }
  }

  lemma LastIn<T>(xs: seq<T>, ys: seq<T>, i: nat) returns (j: nat)
    requires i < |xs| && i < |ys| && multiset(xs[..i + 1]) == multiset(ys[..i + 1])
    ensures j <= i && xs[j] == ys[i]
  {
    assert ys[..i + 1][i] in multiset(xs[..i + 1]);
    j :| 0 <= j < i + 1 && xs[..i + 1][j] == ys[i];
  }

  lemma SwapsToEnd<T>(xs: seq<T>, i: nat, j: nat)
    requires j <= i < |xs|
    ensures var zs := Swapped(xs, i, j);
            && |zs| == |xs| && zs[i] == xs[j] && zs[i + 1..] == xs[i + 1..]
            && multiset(zs[..i]) == multiset(xs[..i + 1]) - multiset{xs[j]}
  {
    var zs := Swapped(xs, i, j);
    var was := xs[..i + 1];
    assert zs[..i + 1] == was[i := was[j]][j := was[i]];
    assert zs[..i + 1] == zs[..i] + [zs[i]];
    assert multiset(zs[..i + 1]) == multiset(was);
  }

  lemma SameFirst<T>(xs: seq<T>, ys: seq<T>)
    requires |xs| == |ys| > 0 && multiset(xs[..1]) == multiset(ys[..1]) && xs[1..] == ys[1..]
    ensures xs == ys
  {
    var j := LastIn(xs, ys, 0);
    assert xs == [xs[0]] + xs[1..] && ys == [ys[0]] + ys[1..];
  }

  /** Swapping the wanted element to position `i` leaves the same task below it. */
  lemma SwapLeaves<T>(xs: seq<T>, ys: seq<T>, i: nat, j: nat)
    requires |xs| == |ys| && j <= i < |xs| && xs[j] == ys[i]
    requires multiset(xs[..i + 1]) == multiset(ys[..i + 1]) && xs[i + 1..] == ys[i + 1..]
    ensures var zs := Swapped(xs, i, j);
            |zs| == |ys| && multiset(zs[..i]) == multiset(ys[..i]) && zs[i..] == ys[i..]
  {
    SwapsToEnd(xs, i, j);
    hide Swapped;
    var zs := Swapped(xs, i, j);
    assert ys[..i + 1] == ys[..i] + [ys[i]];
    assert zs[i..] == [zs[i]] + zs[i + 1..] && ys[i..] == [ys[i]] + ys[i + 1..];
  }

  lemma ShuffleNext<T>(xs: seq<T>, draws: nat -> nat, i: nat, j: nat)
    requires 0 < i < |xs| && j <= i && draws(i) == j
    ensures |Swapped(xs, i, j)| == |xs| && Shuffled(xs, draws, i) == Shuffled(Swapped(xs, i, j), draws, i - 1)
  {
    assert draws(i) % (i + 1) == j;
  }

  /** Every rearrangement of the elements up to `i` arises from some draws. */
  lemma {:induction false} ShuffleReaches<T>(xs: seq<T>, ys: seq<T>, i: nat) returns (draws: nat -> nat)
    requires |xs| == |ys| && i < |xs|
    requires multiset(xs[..i + 1]) == multiset(ys[..i + 1]) && xs[i + 1..] == ys[i + 1..]
    ensures Shuffled(xs, draws, i) == ys
    decreases i
  {
    hide Swapped;
    if i == 0 {
      draws := t => 0;
      SameFirst(xs, ys);
    } else {
      hide Shuffled;
      var j := LastIn(xs, ys, i);
      SwapLeaves(xs, ys, i, j);
      var zs := Swapped(xs, i, j);
      var rest := ShuffleReaches(zs, ys, i - 1);
      draws := t => if t == i then j else rest(t);
      ShuffleNext(xs, draws, i, j);
      SameShuffle(zs, draws, rest, i - 1);
    }
  }

  /** How many of the listed rows carry the target. */
  ghost function Carriers<V(!new)>(values: seq<V>, target: Target<V>, show: V -> string, rows: seq<nat>): nat {
    multiset(MapSeq(CarriesAt(values, target, show), rows))[true]
  }

  lemma {:induction false} ConstantCount(bits: seq<bool>, b: bool)
    requires forall i :: 0 <= i < |bits| ==> bits[i] == b
    ensures multiset(bits)[true] == if b then |bits| else 0
  {
    if |bits| > 0 {
      ConstantCount(bits[..|bits| - 1], b);
      assert bits == bits[..|bits| - 1] + [bits[|bits| - 1]];
    }
  }

  lemma DrawnCarriers<V(!new)>(values: seq<V>, target: Target<V>, show: V -> string, wanted: nat,
                         favoured: nat -> nat, others: nat -> nat)
    requires !Degenerate(values, target, show) && wanted <= |values|
    ensures var drawn := Drawn(values, target, show, wanted, favoured, others);
            && |drawn| == |values|
            && (forall i :: i in drawn ==> i < |values|)
            && Carriers(values, target, show, drawn) == wanted
  {
    hide Carries, Distinct;
    var carries := CarriesAt(values, target, show);
    var yes := Draw(Where(values, target, show, true, |values|), favoured, wanted);
    var no := Draw(Where(values, target, show, false, |values|), others, |values| - wanted);
    ConstantCount(MapSeq(carries, yes), true);
    ConstantCount(MapSeq(carries, no), false);
    assert MapSeq(carries, yes + no) == MapSeq(carries, yes) + MapSeq(carries, no);
  }

  lemma {:induction false} DrawReaches(pool: seq<nat>, rows: seq<nat>) returns (draws: nat -> nat)
    requires |pool| > 0 && forall i :: 0 <= i < |rows| ==> rows[i] in pool
    ensures Draw(pool, draws, |rows|) == rows
  {
    if |rows| == 0 {
      draws := t => 0;
    } else {
      var n := |rows| - 1;
      var front := DrawReaches(pool, rows[..n]);
      var j :| 0 <= j < |pool| && pool[j] == rows[n];
      draws := t => if t == n then j else front(t);
      var drawn := Draw(pool, draws, |rows|);
      forall i | 0 <= i < |rows| ensures drawn[i] == rows[i] {
        if i < n {
          assert drawn[i] == Draw(pool, front, n)[i] == rows[..n][i];
        } else {
          assert j % |pool| == j;
        }
      }
    }
  }

  lemma Sorted<T>(yes: seq<T>, no: seq<T>, front: seq<T>, rows: seq<T>)
    requires |rows| > 0 && front == rows[..|rows| - 1] && multiset(yes + no) == multiset(front)
    ensures multiset(yes + [rows[|rows| - 1]] + no) == multiset(yes + (no + [rows[|rows| - 1]])) == multiset(rows)
  {
    assert rows == front + [rows[|rows| - 1]];
  }

  lemma {:induction false} SplitCarriers<V(!new)>(values: seq<V>, target: Target<V>, show: V -> string, rows: seq<nat>)
    returns (yes: seq<nat>, no: seq<nat>)
    requires forall i :: 0 <= i < |rows| ==> rows[i] < |values|
    ensures multiset(yes + no) == multiset(rows) && |yes| == Carriers(values, target, show, rows)
    ensures forall i :: 0 <= i < |yes| ==> yes[i] in Where(values, target, show, true, |values|)
    ensures forall i :: 0 <= i < |no| ==> no[i] in Where(values, target, show, false, |values|)
  {
    hide Carries, CarriesAt, Where;
    if |rows| == 0 {
      yes, no := [], [];
    } else {
      hide Carriers;
      var n := |rows| - 1;
      yes, no := SplitCarriers(values, target, show, rows[..n]);
      CarriersPush(values, target, show, rows);
      Sorted(yes, no, rows[..n], rows);
      if CarriesAt(values, target, show)(rows[n]) {
        yes := yes + [rows[n]];
      } else {
        no := no + [rows[n]];
      }
    }
  }

  lemma CarriersPush<V(!new)>(values: seq<V>, target: Target<V>, show: V -> string, rows: seq<nat>)
    requires |rows| > 0
    ensures var n := |rows| - 1;
            Carriers(values, target, show, rows) == Carriers(values, target, show, rows[..n])
              + if CarriesAt(values, target, show)(rows[n]) then 1 else 0
  {
    hide Carries;
    var f := CarriesAt(values, target, show);
    var n := |rows| - 1;
    assert MapSeq(f, rows) == MapSeq(f, rows[..n]) + [f(rows[n])];
  }

  /**
   * Nothing is favoured beyond the share: every order of `n` rows of which the rounded share carries the target is
   * returned for some draws.
   */
  lemma {:induction false} ResamplingReaches<V(!new)>(params: Params, targetFields: seq<string>, cols: seq<Column<V>>,
                                                      n: nat, show: V -> string, rows: seq<nat>)
    returns (favoured: nat -> nat, others: nat -> nat, swaps: nat -> nat)
    requires IsTable(cols, n) && |rows| == n && forall i :: 0 <= i < n ==> rows[i] < n
    requires var values := cols[ChosenColumn(params, targetFields, cols)].cells;
             !Degenerate(values, ChosenTarget(params, values), show)
             && Carriers(values, ChosenTarget(params, values), show, rows) == Wanted(params, n)
    ensures Resampling(params, targetFields, cols, show, favoured, others, swaps) == Order(rows)
  {
    hide Degenerate, ChosenTarget, ChosenColumn, Carriers, Wanted, Drawn, Shuffled;
    assert cols[ChosenColumn(params, targetFields, cols)] in cols;
    var values := cols[ChosenColumn(params, targetFields, cols)].cells;
    favoured, others, swaps := DrawnReaches(values, ChosenTarget(params, values), show, rows);
  }

  lemma DrawnReaches<V(!new)>(values: seq<V>, target: Target<V>, show: V -> string, rows: seq<nat>)
    returns (favoured: nat -> nat, others: nat -> nat, swaps: nat -> nat)
    requires !Degenerate(values, target, show) && |rows| == |values|
    requires forall i :: 0 <= i < |rows| ==> rows[i] < |values|
    ensures Carriers(values, target, show, rows) <= |values| && |values| > 0
    ensures Shuffled(Drawn(values, target, show, Carriers(values, target, show, rows), favoured, others), swaps,
                     |values| - 1) == rows
  {
    hide Carries, Carriers, Draw, Where, Shuffled;
    NotDegenerate(values, target, show);
    hide Degenerate;
    var yes, no := SplitCarriers(values, target, show, rows);
    SameLength(yes + no, rows);
    favoured := DrawReaches(Where(values, target, show, true, |values|), yes);
    others := DrawReaches(Where(values, target, show, false, |values|), no);
    assert Drawn(values, target, show, |yes|, favoured, others) == yes + no;
    hide Drawn;
    swaps := WholeReached(yes + no, rows);
  }

  lemma WholeReached(drawn: seq<nat>, rows: seq<nat>) returns (swaps: nat -> nat)
    requires |drawn| == |rows| > 0 && multiset(drawn) == multiset(rows)
    ensures Shuffled(drawn, swaps, |rows| - 1) == rows
  {
    hide Shuffled;
    var n := |rows| - 1;
    assert drawn[..n + 1] == drawn && rows[..n + 1] == rows;
    swaps := ShuffleReaches(drawn, rows, n);
  }

  lemma NotDegenerate<V(!new)>(values: seq<V>, target: Target<V>, show: V -> string)
    requires !Degenerate(values, target, show)
    ensures |Where(values, target, show, true, |values|)| > 0 && |Where(values, target, show, false, |values|)| > 0
    ensures |values| > 0
  {
    hide Where;
    var carrying := Where(values, target, show, true, |values|);
    assert carrying[0] in carrying;
  }

  lemma WantedRounds(params: Params, n: nat)
    ensures Selection.Rounds(Wanted(params, n), Portion(params, n))
  {
    hide Portion, Selection.Rounds, Selection.RoundHalfEven;
    Selection.RoundsUniquely(Wanted(params, n), Portion(params, n));
  }

  /** The order the sampler returns holds exactly the rounded share of favoured rows, whatever is drawn. */
  lemma ResamplingExact<V(!new)>(params: Params, targetFields: seq<string>, cols: seq<Column<V>>, n: nat,
                          show: V -> string,
                           favoured: nat -> nat, others: nat -> nat, swaps: nat -> nat)
    requires IsTable(cols, n)
    ensures var values := cols[ChosenColumn(params, targetFields, cols)].cells;
            var target := ChosenTarget(params, values);
            var r := Resampling(params, targetFields, cols, show, favoured, others, swaps);
            && (Degenerate(values, target, show) ==> r == Order(Iota(n)))
            && (r.BadSize? <==> !Degenerate(values, target, show) && !(0 <= Wanted(params, n) <= n))
            && (r.Order? ==> |r.rows| == n && forall i :: 0 <= i < n ==> r.rows[i] < n)
            && (r.Order? && !Degenerate(values, target, show) ==>
                  Carriers(values, target, show, r.rows) == Wanted(params, n))
            && Selection.Rounds(Wanted(params, n), Portion(params, n))
  {
    hide Degenerate, Drawn, Carries, Wanted, ChosenTarget, Shuffled;
    assert cols[ChosenColumn(params, targetFields, cols)] in cols;
    var values := cols[ChosenColumn(params, targetFields, cols)].cells;
    var target := ChosenTarget(params, values);
    var wanted := Wanted(params, n);
    WantedRounds(params, n);
    if !Degenerate(values, target, show) && 0 <= wanted <= n {
      DrawnCarriers(values, target, show, wanted, favoured, others);
      var drawn: seq<nat> := Drawn(values, target, show, wanted, favoured, others);
      var rows: seq<nat> := Shuffled(drawn, swaps, n - 1);
      ShuffleKeeps(drawn, swaps, n - 1);
      SameLength(drawn, rows);
      MappedMultiset<nat, bool>(drawn, rows, CarriesAt(values, target, show));
      forall i | 0 <= i < n ensures rows[i] < n {
        assert rows[i] in multiset(drawn);
        assert rows[i] in drawn;
      }
    }
  }

  /** With a ratio in [0, 1] the sampler never fails. */
  lemma RatioInRange(params: Params, n: nat)
    requires 0.0 <= params.ratio <= 1.0
    ensures 0 <= Wanted(params, n) <= n
  {
    hide Selection.RoundHalfEven, Selection.Rounds, Portion;
    PortionWithin(params, n);
    Selection.RoundBounds(Portion(params, n), n);
  }

  lemma PortionWithin(params: Params, n: nat)
    requires 0.0 <= params.ratio <= 1.0
    ensures 0.0 <= Portion(params, n) <= n as real
  {
    Share(params.ratio, n as real);
  }

  ghost predicate RowsExist<V>(cols: seq<Column<V>>, rows: seq<nat>) {
    forall c, p :: 0 <= c < |cols| && 0 <= p < |rows| ==> rows[p] < |cols[c].cells|
  }

  /** One order reindexes every column. */
  function Reindexed<V>(cols: seq<Column<V>>, rows: seq<nat>): (out: seq<Column<V>>)
    requires RowsExist(cols, rows)
  {
    MapColumns(cols, rows, |cols|)
  }

  function MapColumns<V>(cols: seq<Column<V>>, rows: seq<nat>, k: nat): (out: seq<Column<V>>)
    requires k <= |cols| && RowsExist(cols, rows)
    ensures |out| == k
    ensures forall c :: 0 <= c < k ==> out[c].name == cols[c].name && |out[c].cells| == |rows|
    ensures forall c, p :: 0 <= c < k && 0 <= p < |rows| ==> out[c].cells[p] == cols[c].cells[rows[p]]
  {
    if k == 0 then []
    else MapColumns(cols, rows, k - 1) +
         [Column(cols[k - 1].name, seq(|rows|, p requires 0 <= p < |rows| => cols[k - 1].cells[rows[p]]))]
  }

  ghost function RowAt<V>(cols: seq<Column<V>>, i: nat): (row: seq<V>)
    requires forall c :: 0 <= c < |cols| ==> i < |cols[c].cells|
    ensures |row| == |cols| && forall c :: 0 <= c < |cols| ==> row[c] == cols[c].cells[i]
  {
    seq(|cols|, c requires 0 <= c < |cols| => cols[c].cells[i])
  }

  lemma ReindexedWhole<V(!new)>(cols: seq<Column<V>>, rows: seq<nat>, n: nat)
    requires IsTable(cols, n) && |rows| == n && forall p :: 0 <= p < n ==> rows[p] < n
    ensures RowsExist(cols, rows)
    ensures var out := Reindexed(cols, rows);
            && IsTable(out, n) && |out| == |cols|
            && (forall c :: 0 <= c < |cols| ==> |cols[c].cells| == |out[c].cells| == n)
            && (forall p :: 0 <= p < n ==> RowAt(out, p) == RowAt(cols, rows[p]))
            && (rows == Iota(n) ==> out == cols)
  {
    forall c | 0 <= c < |cols| ensures |cols[c].cells| == n { assert cols[c] in cols; }
    var out := Reindexed(cols, rows);
    if rows == Iota(n) {
      forall c | 0 <= c < |cols| ensures out[c] == cols[c] {
        forall p | 0 <= p < n ensures out[c].cells[p] == cols[c].cells[p] {
          assert rows[p] == p;
        }
        assert out[c].cells == cols[c].cells;
      }
    }
  }

  lemma CarriersMove<V(!new)>(before: seq<V>, after: seq<V>, rows: seq<nat>, target: Target<V>, show: V -> string)
    requires |before| == |after| == |rows|
    requires forall p :: 0 <= p < |rows| ==> rows[p] < |before| && after[p] == before[rows[p]]
    ensures Carriers(after, target, show, Iota(|rows|)) == Carriers(before, target, show, rows)
  {
    assert MapSeq(CarriesAt(after, target, show), Iota(|rows|)) == MapSeq(CarriesAt(before, target, show), rows);
  }

  /** The biased table: as many rows as before, each a whole input row, exactly the rounded share of them favoured. */
  lemma {:induction false} BiasedTable<V(!new)>(params: Params, targetFields: seq<string>, cols: seq<Column<V>>, n: nat,
                                         show: V -> string,
                             favoured: nat -> nat, others: nat -> nat, swaps: nat -> nat)
    requires IsTable(cols, n) && 0.0 <= params.ratio <= 1.0
    ensures var chosen := ChosenColumn(params, targetFields, cols);
            var target := ChosenTarget(params, cols[chosen].cells);
            var r := Resampling(params, targetFields, cols, show, favoured, others, swaps);
            && r.Order? && |r.rows| == n && RowsExist(cols, r.rows)
            && var out := Reindexed(cols, r.rows);
               && IsTable(out, n) && |out| == |cols|
               && (forall p :: 0 <= p < n ==> r.rows[p] < n && RowAt(out, p) == RowAt(cols, r.rows[p]))
               && (!Degenerate(cols[chosen].cells, target, show) ==>
                     Selection.Rounds(Carriers(out[chosen].cells, target, show, Iota(n)), Portion(params, n)))
               && (Degenerate(cols[chosen].cells, target, show) ==> out == cols)
  {
    hide Degenerate, Carries, ChosenTarget, ChosenColumn, Resampling, Wanted, Carriers, CarriesAt;
    ResamplingExact(params, targetFields, cols, n, show, favoured, others, swaps);
    RatioInRange(params, n);
    var chosen := ChosenColumn(params, targetFields, cols);
    var target := ChosenTarget(params, cols[chosen].cells);
    var r := Resampling(params, targetFields, cols, show, favoured, others, swaps);
    ReindexedWhole(cols, r.rows, n);
    CarriersMove(cols[chosen].cells, Reindexed(cols, r.rows)[chosen].cells, r.rows, target, show);
  }
}

/** Concept drift on a categorical column: rotating the observed categories by one. */
module ConceptDrift {
  import opened Sequences
  import opened Ordering
  import opened Arithmetic

  type Cell = Option<string>

  /** The non-null values of the first `k` cells. */
  function Present(column: seq<Cell>, k: nat): seq<string>
    requires k <= |column|
  {
    if k == 0 then []
    else Present(column, k - 1) + (if column[k - 1].Some? then [column[k - 1].value] else [])
  }

  /** `sorted({v for v in column if v is not None})`. */
  function Observed(column: seq<Cell>): seq<string> {
    var present := Present(column, |column|);
    SortedSet(present, |present|)
  }

  lemma {:induction false} PresentMember(column: seq<Cell>, k: nat, x: string)
    requires k <= |column|
    ensures x in Present(column, k) <==> Some(x) in column[..k]
  {
    if k > 0 {
      PresentMember(column, k - 1, x);
      assert column[..k] == column[..k - 1] + [column[k - 1]];
    }
  }

  lemma ObservedExact(column: seq<Cell>)
    ensures SortedBy(Observed(column), Identity, StrLe) && NoDuplicates(Observed(column))
    ensures forall x :: x in Observed(column) <==> Some(x) in column
  {
    hide SortedSet, StrLe;
    var present := Present(column, |column|);
    SortedSetExact(present, |present|);
    assert present[..|present|] == present && column[..|column|] == column;
    forall x ensures x in present <==> Some(x) in column { PresentMember(column, |column|, x); }
  }

  /** `{observed[i]: observed[(i + 1) % k] for i in range(k)}`, over the first `i` entries. */
  function Rotation(observed: seq<string>, i: nat): map<string, string>
    requires i <= |observed|
  {
    if i == 0 then map[] else Rotation(observed, i - 1)[observed[i - 1] := observed[i % |observed|]]
  }

  lemma {:induction false} RotationAt(observed: seq<string>, i: nat, j: nat)
    requires NoDuplicates(observed) && j < i <= |observed|
    ensures observed[j] in Rotation(observed, i)
    ensures Rotation(observed, i)[observed[j]] == observed[(j + 1) % |observed|]
  {
    if j < i - 1 {
      RotationAt(observed, i - 1, j);
    }
  }

  function Turned(cell: Cell, rotation: map<string, string>): Cell {
    if cell.Some? && cell.value in rotation then Some(rotation[cell.value]) else cell
  }

  function Rotated(column: seq<Cell>): (r: seq<Cell>)
    ensures |r| == |column|
  {
    var observed := Observed(column);
    if |observed| < 2 then column
    else
      var rotation := Rotation(observed, |observed|);
      seq(|column|, i requires 0 <= i < |column| => Turned(column[i], rotation))
  }

  function RotatedTimes(column: seq<Cell>, times: nat): seq<Cell> {
    if times == 0 then column else Rotated(RotatedTimes(column, times - 1))
  }

  /** The category `steps` places after the `j`-th, around the cycle. */
  function After(observed: seq<string>, j: nat, steps: nat): string
    requires |observed| > 0
  {
    observed[(j + steps) % |observed|]
  }

  /** Each cell as a place in the list of categories. */
  ghost function Place(observed: seq<string>, cell: Cell): (j: nat)
    requires cell.Some? ==> cell.value in observed
    ensures cell.Some? ==> j < |observed| && observed[j] == cell.value
  {
    if cell.Some? then
      var j :| 0 <= j < |observed| && observed[j] == cell.value; j
    else 0
  }

  lemma CellsObserved(column: seq<Cell>, i: nat)
    requires i < |column| && column[i].Some?
    ensures column[i].value in Observed(column)
  {
    hide Observed;
    ObservedExact(column);
    assert Some(column[i].value) in column;
  }

  /** Nulls stay null; every other cell moves to the next category in sorted order, the last to the first. */
  lemma RotatedCell(column: seq<Cell>, i: nat)
    requires i < |column|
    ensures column[i].None? ==> Rotated(column)[i].None?
    ensures column[i].Some? ==>
              && column[i].value in Observed(column)
              && |Observed(column)| > 0
              && Rotated(column)[i] == Some(After(Observed(column), Place(Observed(column), column[i]), 1))
  {
    hide Observed, Rotation;
    ObservedExact(column);
    if column[i].Some? {
      CellsObserved(column, i);
      var observed := Observed(column);
      var j := Place(observed, column[i]);
      if |observed| >= 2 {
        RotationAt(observed, |observed|, j);
      }
    }
  }

  lemma NextWraps(j: nat, k: nat)
    requires j < k
    ensures (j + 1) % k == if j + 1 < k then j + 1 else 0
  {
  }

  lemma AfterInjective(observed: seq<string>, a: nat, b: nat)
    requires NoDuplicates(observed) && a < |observed| && b < |observed|
    ensures After(observed, a, 1) == After(observed, b, 1) <==> observed[a] == observed[b]
  {
    NextWraps(a, |observed|);
    NextWraps(b, |observed|);
  }

  /** Rotation neither merges nor splits categories. */
  lemma RotationInjective(column: seq<Cell>, i: nat, j: nat)
    requires i < |column| && j < |column|
    ensures Rotated(column)[i] == Rotated(column)[j] <==> column[i] == column[j]
  {
    hide Observed, Rotated, After;
    RotatedCell(column, i);
    RotatedCell(column, j);
    if column[i].Some? && column[j].Some? {
      var observed := Observed(column);
      ObservedExact(column);
      AfterInjective(observed, Place(observed, column[i]), Place(observed, column[j]));
    }
  }

  lemma {:induction false} SortedSetsEqual(xs: seq<string>, ys: seq<string>)
    requires SortedBy(xs, Identity, StrLe) && NoDuplicates(xs)
    requires SortedBy(ys, Identity, StrLe) && NoDuplicates(ys)
    requires forall x :: x in xs <==> x in ys
    ensures xs == ys
  {
    hide StrLe;
    StrLeIsTotalOrder();
    forall x ensures multiset(xs)[x] == multiset(ys)[x] {
      AtMostOnce(xs, x);
      AtMostOnce(ys, x);
      assert x in xs <==> x in multiset(xs);
      assert x in ys <==> x in multiset(ys);
    }
    assert multiset(xs) == multiset(ys);
    SortedUnique(xs, ys, StrLe);
  }

  /** The set of observed categories is unchanged. */
  lemma ObservedUnchanged(column: seq<Cell>)
    ensures Observed(Rotated(column)) == Observed(column)
  {
    hide Observed, Rotated, SortedBy;
    var observed, turned := Observed(column), Rotated(column);
    ObservedExact(column);
    ObservedExact(turned);
    forall x ensures x in observed <==> x in Observed(turned) {
      if x in observed { StillObserved(column, x); }
      if Some(x) in turned {
        var i :| 0 <= i < |turned| && turned[i] == Some(x);
        RotatedCell(column, i);
      }
    }
    SortedSetsEqual(observed, Observed(turned));
  }

  lemma StillObserved(column: seq<Cell>, x: string)
    requires x in Observed(column)
    ensures Some(x) in Rotated(column)
  {
    hide Observed, Rotated;
    var observed := Observed(column);
    ObservedExact(column);
    var j :| 0 <= j < |observed| && observed[j] == x;
    var before := if j == 0 then |observed| - 1 else j - 1;
    NextWraps(before, |observed|);
    assert Some(observed[before]) in column by { assert observed[before] in observed; }
    var i :| 0 <= i < |column| && column[i] == Some(observed[before]);
    RotatedCell(column, i);
    assert Place(observed, column[i]) == before;
    assert Rotated(column)[i] == Some(x);
  }

  lemma OneMoreTurn(column: seq<Cell>, i: nat, j: nat, steps: nat)
    requires i < |column| && j < |Observed(column)|
    requires column[i] == Some(After(Observed(column), j, steps))
    ensures Rotated(column)[i] == Some(After(Observed(column), j, steps + 1))
  {
    hide Observed, Rotated;
    var observed := Observed(column);
    ObservedExact(column);
    RotatedCell(column, i);
    Successor(j + steps, |observed|);
    var p := (j + steps) % |observed|;
    assert Place(observed, column[i]) == p;
  }

  lemma CellStart(column: seq<Cell>, i: nat)
    requires i < |column|
    ensures column[i].Some? ==>
              && column[i].value in Observed(column)
              && |Observed(column)| > 0
              && column[i] == Some(After(Observed(column), Place(Observed(column), column[i]), 0))
  {
    hide Observed;
    if column[i].Some? {
      CellsObserved(column, i);
    }
  }

  /** `times` applications move every cell `times` places along the same cycle. */
  lemma {:induction false} RotatedTimesCell(column: seq<Cell>, times: nat, i: nat)
    requires i < |column|
    ensures |RotatedTimes(column, times)| == |column|
    ensures Observed(RotatedTimes(column, times)) == Observed(column)
    ensures column[i].None? ==> RotatedTimes(column, times)[i].None?
    ensures column[i].Some? ==>
              && column[i].value in Observed(column)
              && |Observed(column)| > 0
              && RotatedTimes(column, times)[i]
                 == Some(After(Observed(column), Place(Observed(column), column[i]), times))
  {
    hide Observed, Rotated, After, SortedBy, NoDuplicates;
    var observed := Observed(column);
    CellStart(column, i);
    if times > 0 {
      var before := RotatedTimes(column, times - 1);
      RotatedTimesCell(column, times - 1, i);
      ObservedUnchanged(before);
      RotatedCell(before, i);
      if column[i].Some? {
        OneMoreTurn(before, i, Place(observed, column[i]), times - 1);
      }
    }
  }

  lemma WholeTurns(j: nat, times: nat, k: nat)
    requires j < k
    ensures times % k == 0 ==> (j + times) % k == j
    ensures j == 0 ==> (j + times) % k == times % k
  {
    if times % k == 0 {
      assert times == times / k * k;
      DivMod(times / k, j, k);
    }
  }

  /** Repeating the drift restores the column exactly at the multiples of the number of categories. */
  lemma FullCycleRestores(column: seq<Cell>, times: nat)
    ensures RotatedTimes(column, times) == column <==> |Observed(column)| == 0 || times % |Observed(column)| == 0
  {
    hide Observed, RotatedTimes, Rotated;
    var observed := Observed(column);
    var k := |observed|;
    ObservedExact(column);
    if |column| > 0 { RotatedTimesCell(column, times, 0); }
    if k > 0 && times % k != 0 {
      assert Some(observed[0]) in column by { assert observed[0] in observed; }
      var first :| 0 <= first < |column| && column[first] == Some(observed[0]);
      RotatedTimesCell(column, times, first);
      assert Place(observed, column[first]) == 0;
      WholeTurns(0, times, k);
      assert observed[times % k] != observed[0];
    } else {
      EveryCellRestored(column, times);
    }
  }

  lemma EveryCellRestored(column: seq<Cell>, times: nat)
    requires |Observed(column)| == 0 || times % |Observed(column)| == 0
    ensures RotatedTimes(column, times) == column
  {
    hide Observed, Rotated;
    if |column| == 0 {
      EmptyStaysEmpty(column, times);
    } else {
      RotatedTimesCell(column, times, 0);
      hide RotatedTimes;
      forall i | 0 <= i < |column| ensures RotatedTimes(column, times)[i] == column[i] {
        RotatedTimesCell(column, times, i);
        if column[i].Some? {
          WholeTurns(Place(Observed(column), column[i]), times, |Observed(column)|);
        }
      }
    }
  }

  lemma {:induction false} EmptyStaysEmpty(column: seq<Cell>, times: nat)
    requires |column| == 0
    ensures RotatedTimes(column, times) == column
  {
    if times > 0 {
      EmptyStaysEmpty(column, times - 1);
      assert |Rotated(column)| == 0;
    }
  }

  ghost function CountOf(column: seq<Cell>, cell: Cell, k: nat): nat
    requires k <= |column|
  {
    if k == 0 then 0 else CountOf(column, cell, k - 1) + (if column[k - 1] == cell then 1 else 0)
  }

  lemma {:induction false} CountMoves(column: seq<Cell>, from: Cell, to: Cell, k: nat)
    requires k <= |column|
    requires forall i :: 0 <= i < |column| ==> (column[i] == from <==> Rotated(column)[i] == to)
    ensures CountOf(Rotated(column), to, k) == CountOf(column, from, k)
  {
    hide Rotated;
    if k > 0 {
      CountMoves(column, from, to, k - 1);
    }
  }

  /** The histogram moves one place: each category's count becomes the next category's, and nulls keep theirs. */
  lemma HistogramShifts(column: seq<Cell>, j: nat)
    requires j < |Observed(column)|
    ensures CountOf(Rotated(column), Some(After(Observed(column), j, 1)), |column|)
         == CountOf(column, Some(Observed(column)[j]), |column|)
    ensures CountOf(Rotated(column), None, |column|) == CountOf(column, None, |column|)
  {
    hide Observed, Rotated;
    var observed := Observed(column);
    ObservedExact(column);
    assert Some(observed[j]) in column by { assert observed[j] in observed; }
    var home :| 0 <= home < |column| && column[home] == Some(observed[j]);
    RotatedCell(column, home);
    assert Place(observed, column[home]) == j;
    forall i | 0 <= i < |column|
      ensures column[i] == Some(observed[j]) <==> Rotated(column)[i] == Some(After(observed, j, 1))
      ensures column[i] == None <==> Rotated(column)[i] == None
    {
      RotationInjective(column, i, home);
      RotatedCell(column, i);
    }
    CountMoves(column, Some(observed[j]), Some(After(observed, j, 1)), |column|);
    CountMoves(column, None, None, |column|);
  }
}

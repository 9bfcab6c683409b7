/** Weighted aggregation of expert scores, over reals. */
module Aggregator {
  import opened Sequences
  import opened Arithmetic

  datatype Score = Score(dimension: string, score: real)

  datatype Report = Report(overall: real, applied: map<string, real>)

  function DimensionOf(s: Score): string { s.dimension }

  /** A dimension without a weight counts for nothing. */
  function Weight(w: map<string, real>, d: string): real {
    if d in w then w[d] else 0.0
  }

  /** `sum` of the first `k` entries. */
  function Sum(xs: seq<real>, k: nat): real
    requires k <= |xs|
  {
    if k == 0 then 0.0 else Sum(xs, k - 1) + xs[k - 1]
  }

  function SumAll(xs: seq<real>): real {
    Sum(xs, |xs|)
  }

  function Plain(scores: seq<Score>): (xs: seq<real>)
    ensures |xs| == |scores| && forall i :: 0 <= i < |xs| ==> xs[i] == scores[i].score
  {
    seq(|scores|, i requires 0 <= i < |scores| => scores[i].score)
  }

  function Weights(dims: seq<string>, w: map<string, real>): (xs: seq<real>)
    ensures |xs| == |dims| && forall i :: 0 <= i < |xs| ==> xs[i] == Weight(w, dims[i])
  {
    seq(|dims|, i requires 0 <= i < |dims| => Weight(w, dims[i]))
  }

  /** Each expert's share of the weighted sum. */
  function Terms(scores: seq<Score>, w: map<string, real>): (xs: seq<real>)
    ensures |xs| == |scores| && forall i :: 0 <= i < |xs| ==>
              xs[i] == Times(scores[i].score, Weight(w, scores[i].dimension))
  {
    seq(|scores|, i requires 0 <= i < |scores| => Times(scores[i].score, Weight(w, scores[i].dimension)))
  }

  function Listed(scores: seq<Score>): (dims: seq<string>)
    ensures |dims| == |scores|
    ensures forall i :: 0 <= i < |dims| ==> dims[i] == scores[i].dimension
  {
    MapSeq(DimensionOf, scores)
  }

  /** The keys of the weight dictionary built from the scores. */
  function Dimensions(scores: seq<Score>): seq<string> {
    Distinct(Listed(scores), |scores|)
  }

  function Present(scores: seq<Score>, w: map<string, real>): real {
    SumAll(Weights(Dimensions(scores), w))
  }

  /** `w` holds the effective weights: the defaults overlaid with the run's overrides. */
  function Aggregate(scores: seq<Score>, w: map<string, real>): Report {
    var dims := Dimensions(scores);
    var total := Present(scores, w);
    if |scores| == 0 then Report(0.0, map[])
    else if total <= 0.0 then
      var n := |scores| as real;
      Report(Over(SumAll(Plain(scores)), n), map d | d in dims :: Over(1.0, n))
    else
      Report(Over(SumAll(Terms(scores, w)), total), map d | d in dims :: Over(Weight(w, d), total))
  }

  ghost predicate Nonnegatives(scores: seq<Score>, w: map<string, real>) {
    forall i :: 0 <= i < |scores| ==> Weight(w, scores[i].dimension) >= 0.0
  }

  /** No expert's weight is negative, or the weights leave nothing to share out and the plain mean is taken. */
  ghost predicate Sensible(scores: seq<Score>, w: map<string, real>) {
    Present(scores, w) <= 0.0 || Nonnegatives(scores, w)
  }

  // Sums

  lemma {:induction false} SumScaled(xs: seq<real>, ys: seq<real>, c: real, k: nat)
    requires |xs| == |ys| && k <= |xs|
    requires forall i :: 0 <= i < |xs| ==> ys[i] == Times(c, xs[i])
    ensures Sum(ys, k) == Times(c, Sum(xs, k))
  {
    hide Times;
    if k > 0 {
      SumScaled(xs, ys, c, k - 1);
      TimesDistributes(c, Sum(xs, k - 1), xs[k - 1]);
    } else {
      TimesZero(c);
    }
  }

  lemma {:induction false} SumMonotone(xs: seq<real>, ys: seq<real>, k: nat)
    requires |xs| == |ys| && k <= |xs|
    requires forall i :: 0 <= i < |xs| ==> xs[i] <= ys[i]
    ensures Sum(xs, k) <= Sum(ys, k)
  {
    if k > 0 {
      SumMonotone(xs, ys, k - 1);
    }
  }

  lemma {:induction false} SumNonnegative(xs: seq<real>, k: nat)
    requires k <= |xs| && forall i :: 0 <= i < |xs| ==> xs[i] >= 0.0
    ensures Sum(xs, k) >= 0.0
    ensures Sum(xs, k) == 0.0 ==> forall i :: 0 <= i < k ==> xs[i] == 0.0
  {
    if k > 0 {
      SumNonnegative(xs, k - 1);
    }
  }

  lemma {:induction false} SumZeros(xs: seq<real>, k: nat)
    requires k <= |xs| && forall i :: 0 <= i < |xs| ==> xs[i] == 0.0
    ensures Sum(xs, k) == 0.0
  {
    if k > 0 {
      SumZeros(xs, k - 1);
    }
  }

  lemma {:induction false} SumConstant(xs: seq<real>, c: real, k: nat)
    requires k <= |xs| && forall i :: 0 <= i < |xs| ==> xs[i] == c
    ensures Sum(xs, k) == Times(c, k as real)
  {
    hide Times;
    if k > 0 {
      SumConstant(xs, c, k - 1);
      TimesDistributes(c, (k - 1) as real, 1.0);
      TimesOne(c);
    } else {
      TimesZero(c);
    }
  }

  lemma {:induction false} SumSame(xs: seq<real>, ys: seq<real>, k: nat)
    requires k <= |xs| && k <= |ys| && forall i :: 0 <= i < k ==> xs[i] == ys[i]
    ensures Sum(xs, k) == Sum(ys, k)
  {
    if k > 0 {
      SumSame(xs, ys, k - 1);
    }
  }

  lemma {:induction false} SumRemoved(xs: seq<real>, i: nat, k: nat)
    requires i < |xs| && i < k <= |xs|
    ensures Sum(Removed(xs, i), k - 1) == Sum(xs, k) - xs[i]
  {
    if k == i + 1 {
      SumSame(Removed(xs, i), xs, i);
    } else {
      SumRemoved(xs, i, k - 1);
      assert Removed(xs, i)[k - 2] == xs[k - 1];
    }
  }

  lemma SumAllRemoved(xs: seq<real>, i: nat)
    requires i < |xs|
    ensures SumAll(Removed(xs, i)) == SumAll(xs) - xs[i]
  {
    SumRemoved(xs, i, |xs|);
  }

  // Applied weights

  lemma {:induction false} DistinctOfDistinct(names: seq<string>, k: nat)
    requires NoDuplicates(names) && k <= |names|
    ensures Distinct(names, k) == names[..k]
  {
    if k > 0 {
      DistinctOfDistinct(names, k - 1);
      assert names[..k] == names[..k - 1] + [names[k - 1]];
    }
  }

  lemma DimensionsOfDistinct(scores: seq<Score>)
    requires DistinctKeys(scores, DimensionOf)
    ensures Dimensions(scores) == Listed(scores)
  {
    var dims := Listed(scores);
    forall i, j | 0 <= i < j < |dims| ensures dims[i] != dims[j] {
      assert DimensionOf(scores[i]) != DimensionOf(scores[j]);
    }
    DistinctOfDistinct(dims, |dims|);
    assert dims[..|dims|] == dims;
  }

  lemma EvenWeights(scores: seq<Score>, w: map<string, real>)
    requires |scores| > 0 && Dimensions(scores) == Listed(scores) && Present(scores, w) <= 0.0
    ensures var r := Aggregate(scores, w);
            && SumAll(Weights(Listed(scores), r.applied)) == 1.0
            && r.overall == SumAll(Terms(scores, r.applied))
            && Nonnegatives(scores, r.applied)
  {
    hide Times, Over, Dimensions, Sum;
    var r := Aggregate(scores, w);
    var n := |scores| as real;
    var share := Over(1.0, n);
    OverLaws(SumAll(Plain(scores)), n);
    OverLaws(1.0, n);
    var terms, plain := Terms(scores, r.applied), Plain(scores);
    forall i | 0 <= i < |scores| ensures Weight(r.applied, scores[i].dimension) == share {
      assert Listed(scores)[i] in Dimensions(scores);
    }
    forall i | 0 <= i < |scores| ensures terms[i] == Times(share, plain[i]) {
      TimesCommutes(share, plain[i]);
    }
    SumConstant(Weights(Listed(scores), r.applied), share, |scores|);
    SumScaled(plain, terms, share, |scores|);
  }

  lemma ProportionalWeights(scores: seq<Score>, w: map<string, real>)
    requires |scores| > 0 && Dimensions(scores) == Listed(scores) && Present(scores, w) > 0.0
    ensures var r := Aggregate(scores, w);
            && SumAll(Weights(Listed(scores), r.applied)) == 1.0
            && r.overall == SumAll(Terms(scores, r.applied))
            && (Nonnegatives(scores, w) ==> Nonnegatives(scores, r.applied))
  {
    hide Times, Over, Dimensions, Sum;
    var r := Aggregate(scores, w);
    var total := Present(scores, w);
    var c := Over(1.0, total);
    OverLaws(SumAll(Terms(scores, w)), total);
    OverLaws(1.0, total);
    var before, after := Terms(scores, w), Terms(scores, r.applied);
    forall i | 0 <= i < |scores|
      ensures Weight(r.applied, scores[i].dimension) == Times(c, Weight(w, scores[i].dimension))
      ensures after[i] == Times(c, before[i])
      ensures Weight(w, scores[i].dimension) >= 0.0 ==> Weight(r.applied, scores[i].dimension) >= 0.0
    {
      var u := Weight(w, scores[i].dimension);
      assert Listed(scores)[i] in Dimensions(scores);
      OverLaws(u, total);
      TimesReorders(scores[i].score, c, u);
      TimesSign(c, u);
    }
    SumScaled(Weights(Listed(scores), w), Weights(Listed(scores), r.applied), c, |scores|);
    SumScaled(before, after, c, |scores|);
  }

  /** The report is a weighted sum with its own applied weights, which add up to one. */
  lemma AppliedWeights(scores: seq<Score>, w: map<string, real>)
    requires |scores| > 0 && DistinctKeys(scores, DimensionOf)
    ensures var r := Aggregate(scores, w);
            && SumAll(Weights(Listed(scores), r.applied)) == 1.0
            && r.overall == SumAll(Terms(scores, r.applied))
            && (Sensible(scores, w) ==> Nonnegatives(scores, r.applied))
  {
    hide SumAll, Aggregate, Nonnegatives;
    DimensionsOfDistinct(scores);
    if Present(scores, w) <= 0.0 {
      EvenWeights(scores, w);
    } else {
      ProportionalWeights(scores, w);
    }
  }

  // Convexity

  lemma BoundedBelow(scores: seq<Score>, a: map<string, real>, lo: real)
    requires Nonnegatives(scores, a) && SumAll(Weights(Listed(scores), a)) == 1.0
    requires forall i :: 0 <= i < |scores| ==> lo <= scores[i].score
    ensures lo <= SumAll(Terms(scores, a))
  {
    hide Times, Sum;
    var weights, terms := Weights(Listed(scores), a), Terms(scores, a);
    var least := seq(|scores|, i requires 0 <= i < |scores| => Times(lo, weights[i]));
    SumScaled(weights, least, lo, |scores|);
    TimesOne(lo);
    forall i | 0 <= i < |scores| ensures least[i] <= terms[i] {
      TimesMonotone(lo, scores[i].score, weights[i]);
    }
    SumMonotone(least, terms, |scores|);
  }

  lemma BoundedAbove(scores: seq<Score>, a: map<string, real>, hi: real)
    requires Nonnegatives(scores, a) && SumAll(Weights(Listed(scores), a)) == 1.0
    requires forall i :: 0 <= i < |scores| ==> scores[i].score <= hi
    ensures SumAll(Terms(scores, a)) <= hi
  {
    hide Times, Sum;
    var weights, terms := Weights(Listed(scores), a), Terms(scores, a);
    var most := seq(|scores|, i requires 0 <= i < |scores| => Times(hi, weights[i]));
    SumScaled(weights, most, hi, |scores|);
    TimesOne(hi);
    forall i | 0 <= i < |scores| ensures terms[i] <= most[i] {
      TimesMonotone(scores[i].score, hi, weights[i]);
    }
    SumMonotone(terms, most, |scores|);
  }

  lemma OverallBetween(scores: seq<Score>, w: map<string, real>, lo: real, hi: real)
    requires |scores| > 0 && DistinctKeys(scores, DimensionOf) && Sensible(scores, w)
    requires forall i :: 0 <= i < |scores| ==> lo <= scores[i].score <= hi
    ensures lo <= Aggregate(scores, w).overall <= hi
  {
    hide Aggregate, SumAll, Nonnegatives, Sensible;
    AppliedWeights(scores, w);
    BoundedBelow(scores, Aggregate(scores, w).applied, lo);
    BoundedAbove(scores, Aggregate(scores, w).applied, hi);
  }

  /** The least score, when `greatest` is false, else the greatest. */
  function Extreme(scores: seq<Score>, greatest: bool, k: nat): (x: real)
    requires 0 < k <= |scores|
    ensures forall i :: 0 <= i < k ==> if greatest then scores[i].score <= x else x <= scores[i].score
    ensures exists i :: 0 <= i < k && scores[i].score == x
  {
    if k == 1 then scores[0].score
    else
      var x, y := Extreme(scores, greatest, k - 1), scores[k - 1].score;
      if greatest == (y > x) then y else x
  }

  ghost predicate WithinRange(scores: seq<Score>, w: map<string, real>)
    requires |scores| > 0
  {
    Extreme(scores, false, |scores|) <= Aggregate(scores, w).overall <= Extreme(scores, true, |scores|)
  }

  ghost predicate SameDimensions(scores: seq<Score>, others: seq<Score>) {
    |others| == |scores| && forall i :: 0 <= i < |scores| ==> others[i].dimension == scores[i].dimension
  }

  /** `x` at position `i` and zero elsewhere. */
  function Only(scores: seq<Score>, i: nat, x: real): (r: seq<Score>)
    ensures |r| == |scores|
    ensures forall j :: 0 <= j < |r| ==> r[j] == Score(scores[j].dimension, if j == i then x else 0.0)
  {
    seq(|scores|, j requires 0 <= j < |scores| => Score(scores[j].dimension, if j == i then x else 0.0))
  }

  lemma SameKeys(scores: seq<Score>, others: seq<Score>, w: map<string, real>)
    requires SameDimensions(scores, others)
    ensures Listed(others) == Listed(scores) && Present(others, w) == Present(scores, w)
    ensures Sensible(others, w) <==> Sensible(scores, w)
    ensures DistinctKeys(scores, DimensionOf) ==> DistinctKeys(others, DimensionOf)
  {
    hide Distinct, SumAll;
    assert Listed(others) == Listed(scores);
    assert Nonnegatives(others, w) <==> Nonnegatives(scores, w);
    if DistinctKeys(scores, DimensionOf) {
      forall i, j | 0 <= i < j < |others| ensures DimensionOf(others[i]) != DimensionOf(others[j]) {
        assert DimensionOf(scores[i]) != DimensionOf(scores[j]);
      }
    }
  }

  lemma {:induction false} SumOfOnly(xs: seq<real>, i: nat, k: nat)
    requires k <= |xs| && i < |xs| && forall j :: 0 <= j < |xs| && j != i ==> xs[j] == 0.0
    ensures Sum(xs, k) == if i < k then xs[i] else 0.0
  {
    if k > 0 {
      SumOfOnly(xs, i, k - 1);
    }
  }

  /** With a positive total, a lone score counts by its own weight. */
  lemma OnlyOverall(scores: seq<Score>, w: map<string, real>, i: nat, x: real)
    requires i < |scores| && DistinctKeys(scores, DimensionOf) && Present(scores, w) > 0.0
    ensures Times(Present(scores, w), Aggregate(Only(scores, i, x), w).overall)
              == Times(x, Weight(w, scores[i].dimension))
  {
    hide Times, Over, Sum, Weight, Dimensions;
    var only := Only(scores, i, x);
    SameKeys(scores, only, w);
    var terms := Terms(only, w);
    forall j | 0 <= j < |scores| && j != i ensures terms[j] == 0.0 {
      TimesCommutes(0.0, Weight(w, only[j].dimension));
      TimesZero(Weight(w, only[j].dimension));
    }
    SumOfOnly(terms, i, |terms|);
    assert Dimensions(only) == Dimensions(scores) by { SameListed(scores, only); }
    OverLaws(SumAll(terms), Present(scores, w));
  }

  lemma SameListed(scores: seq<Score>, others: seq<Score>)
    requires Listed(scores) == Listed(others)
    ensures Dimensions(scores) == Dimensions(others)
  {
  }

  /** A negative weight under a positive total pulls the overall score below every score. */
  lemma NegativePulls(scores: seq<Score>, w: map<string, real>, i: nat)
    requires i < |scores| && DistinctKeys(scores, DimensionOf) && Present(scores, w) > 0.0
    requires Weight(w, scores[i].dimension) < 0.0
    ensures Aggregate(Only(scores, i, 1.0), w).overall < 0.0
    ensures Aggregate(Only(scores, i, 0.0), w).overall == 0.0
  {
    hide Times, Aggregate, Present, Weight, DistinctKeys;
    var total, u := Present(scores, w), Weight(w, scores[i].dimension);
    OnlyOverall(scores, w, i, 1.0);
    OnlyOverall(scores, w, i, 0.0);
    TimesCommutes(1.0, u);
    TimesOne(u);
    TimesCommutes(0.0, u);
    TimesZero(u);
    TimesSign(total, Aggregate(Only(scores, i, 1.0), w).overall);
    TimesSign(total, Aggregate(Only(scores, i, 0.0), w).overall);
  }

  lemma NegativeWeight(scores: seq<Score>, w: map<string, real>) returns (i: nat)
    requires !Sensible(scores, w)
    ensures i < |scores| && Weight(w, scores[i].dimension) < 0.0 && Present(scores, w) > 0.0
  {
    i :| 0 <= i < |scores| && Weight(w, scores[i].dimension) < 0.0;
  }

  lemma EscapesRange(scores: seq<Score>, w: map<string, real>) returns (others: seq<Score>)
    requires |scores| > 0 && DistinctKeys(scores, DimensionOf) && !Sensible(scores, w)
    ensures SameDimensions(scores, others) && !WithinRange(others, w)
  {
    hide Aggregate, Present, Weight, DistinctKeys, Sensible;
    var i := NegativeWeight(scores, w);
    NegativePulls(scores, w, i);
    others := Only(scores, i, 1.0);
  }

  /**
   * Whatever the experts of these dimensions score, the overall score lies between the least and the greatest exactly
   * when no weight is negative or the total is not positive.
   */
  lemma {:induction false} OverallBetweenIff(scores: seq<Score>, w: map<string, real>)
    requires |scores| > 0 && DistinctKeys(scores, DimensionOf)
    ensures (forall others :: SameDimensions(scores, others) ==> WithinRange(others, w)) <==> Sensible(scores, w)
  {
    hide Aggregate, Sensible, DistinctKeys, Present, Nonnegatives;
    if Sensible(scores, w) {
      forall others | SameDimensions(scores, others) ensures WithinRange(others, w) {
        SameKeys(scores, others, w);
        OverallBetween(others, w, Extreme(others, false, |others|), Extreme(others, true, |others|));
      }
    } else {
      var others := EscapesRange(scores, w);
      assert SameDimensions(scores, others) && !WithinRange(others, w);
    }
  }

  ghost predicate Raised(scores: seq<Score>, scores': seq<Score>) {
    && |scores| == |scores'|
    && forall i :: 0 <= i < |scores| ==>
         scores[i].dimension == scores'[i].dimension && scores[i].score <= scores'[i].score
  }

  lemma SameApplied(scores: seq<Score>, scores': seq<Score>, w: map<string, real>)
    requires Raised(scores, scores') && DistinctKeys(scores, DimensionOf)
    ensures Aggregate(scores, w).applied == Aggregate(scores', w).applied && DistinctKeys(scores', DimensionOf)
  {
    hide Over, Sum, Distinct;
    assert Listed(scores) == Listed(scores');
    forall i, j | 0 <= i < j < |scores'| ensures DimensionOf(scores'[i]) != DimensionOf(scores'[j]) {
      assert DimensionOf(scores[i]) != DimensionOf(scores[j]);
    }
  }

  lemma {:induction false} OverallMonotone(scores: seq<Score>, scores': seq<Score>, w: map<string, real>)
    requires Raised(scores, scores') && DistinctKeys(scores, DimensionOf) && Sensible(scores, w)
    ensures Aggregate(scores, w).overall <= Aggregate(scores', w).overall
  {
    if |scores| > 0 {
      SameApplied(scores, scores', w);
      SameKeys(scores, scores', w);
      hide Aggregate, Times, Sum, Sensible;
      AppliedWeights(scores, w);
      AppliedWeights(scores', w);
      var a := Aggregate(scores, w).applied;
      var terms, terms' := Terms(scores, a), Terms(scores', a);
      forall i | 0 <= i < |scores| ensures terms[i] <= terms'[i] {
        TimesMonotone(scores[i].score, scores'[i].score, Weight(a, scores[i].dimension));
      }
      SumMonotone(terms, terms', |scores|);
    }
  }

  lemma LowersOverall(scores: seq<Score>, w: map<string, real>) returns (before: seq<Score>, after: seq<Score>)
    requires |scores| > 0 && DistinctKeys(scores, DimensionOf) && !Sensible(scores, w)
    ensures SameDimensions(scores, before) && Raised(before, after)
    ensures Aggregate(after, w).overall < Aggregate(before, w).overall
  {
    hide Aggregate, Present, Weight, DistinctKeys, Sensible;
    var i := NegativeWeight(scores, w);
    NegativePulls(scores, w, i);
    before, after := Only(scores, i, 0.0), Only(scores, i, 1.0);
  }

  ghost predicate NeverLowered(before: seq<Score>, after: seq<Score>, w: map<string, real>) {
    Raised(before, after) ==> Aggregate(before, w).overall <= Aggregate(after, w).overall
  }

  /** Under the same condition, and only then, raising scores never lowers the overall score. */
  lemma {:induction false} OverallMonotoneIff(scores: seq<Score>, w: map<string, real>)
    requires |scores| > 0 && DistinctKeys(scores, DimensionOf)
    ensures (forall before, after :: SameDimensions(scores, before) ==> NeverLowered(before, after, w))
            <==> Sensible(scores, w)
  {
    hide Aggregate, Sensible, DistinctKeys, Present, Nonnegatives;
    if Sensible(scores, w) {
      forall before, after | SameDimensions(scores, before) ensures NeverLowered(before, after, w) {
        SameKeys(scores, before, w);
        if Raised(before, after) {
          OverallMonotone(before, after, w);
        }
      }
    } else {
      var before, after := LowersOverall(scores, w);
      assert SameDimensions(scores, before) && !NeverLowered(before, after, w);
    }
  }

  /** Scaling every weight by one positive factor changes nothing in the report. */
  lemma {:induction false} ScaleInvariant(scores: seq<Score>, w: map<string, real>, v: map<string, real>, c: real)
    requires c > 0.0 && forall d :: Weight(v, d) == Times(c, Weight(w, d))
    ensures Aggregate(scores, v) == Aggregate(scores, w)
  {
    hide Times, Over, Sum, Weight, Dimensions;
    var dims := Dimensions(scores);
    var total, scaled := Present(scores, w), Present(scores, v);
    SumScaled(Weights(dims, w), Weights(dims, v), c, |dims|);
    var before, after := Terms(scores, w), Terms(scores, v);
    forall i | 0 <= i < |scores| ensures after[i] == Times(c, before[i]) {
      TimesReorders(scores[i].score, c, Weight(w, scores[i].dimension));
    }
    SumScaled(before, after, c, |scores|);
    TimesSign(c, total);
    if total > 0.0 {
      Cancels(c, SumAll(before), total);
      forall d | d in dims ensures Over(Weight(v, d), scaled) == Over(Weight(w, d), total) {
        Cancels(c, Weight(w, d), total);
      }
    }
  }

  // Dropping an expert

  lemma RemovedScores(scores: seq<Score>, w: map<string, real>, i: nat)
    requires i < |scores| && DistinctKeys(scores, DimensionOf) && Nonnegatives(scores, w)
    ensures var rest := Removed(scores, i);
            && DistinctKeys(rest, DimensionOf) && Nonnegatives(rest, w)
            && Terms(rest, w) == Removed(Terms(scores, w), i)
            && Weights(Listed(rest), w) == Removed(Weights(Listed(scores), w), i)
  {
    hide Times;
    var rest := Removed(scores, i);
    forall a | 0 <= a < |rest| ensures rest[a] == scores[if a < i then a else a + 1] {}
    forall a, b | 0 <= a < b < |rest| ensures DimensionOf(rest[a]) != DimensionOf(rest[b]) {
      var p, q := if a < i then a else a + 1, if b < i then b else b + 1;
      assert DimensionOf(scores[p]) != DimensionOf(scores[q]);
    }
    assert Terms(rest, w) == Removed(Terms(scores, w), i);
    assert Weights(Listed(rest), w) == Removed(Weights(Listed(scores), w), i);
  }

  /** With non-negative weights the overall score times the total weight is the weighted sum, even at weight zero. */
  lemma TotalTimesOverall(scores: seq<Score>, w: map<string, real>)
    requires DistinctKeys(scores, DimensionOf) && Nonnegatives(scores, w)
    ensures Present(scores, w) == SumAll(Weights(Listed(scores), w))
    ensures Times(Present(scores, w), Aggregate(scores, w).overall) == SumAll(Terms(scores, w))
  {
    hide Times, Over;
    DimensionsOfDistinct(scores);
    var weights, terms := Weights(Listed(scores), w), Terms(scores, w);
    SumNonnegative(weights, |scores|);
    var total := Present(scores, w);
    if total > 0.0 {
      OverLaws(SumAll(terms), total);
    } else {
      forall i | 0 <= i < |scores| ensures terms[i] == 0.0 { TimesZero(scores[i].score); }
      SumZeros(terms, |scores|);
      TimesCommutes(total, Aggregate(scores, w).overall);
      TimesZero(Aggregate(scores, w).overall);
    }
  }

  lemma WithoutOne(scores: seq<Score>, w: map<string, real>, i: nat)
    requires i < |scores| && DistinctKeys(scores, DimensionOf) && Nonnegatives(scores, w)
    ensures var total, own, rest := Present(scores, w), Weight(w, scores[i].dimension), Removed(scores, i);
            Times(total, Aggregate(scores, w).overall)
              == Times(scores[i].score, own) + Times(total - own, Aggregate(rest, w).overall)
  {
    hide Times, Aggregate, Sum, SumAll, Removed, Present, Nonnegatives, DistinctKeys;
    var rest := Removed(scores, i);
    RemovedScores(scores, w, i);
    TotalTimesOverall(scores, w);
    TotalTimesOverall(rest, w);
    SumAllRemoved(Terms(scores, w), i);
    SumAllRemoved(Weights(Listed(scores), w), i);
  }

  /** An expert who did not apply leaves both sums: the report is the mean of that expert and the report without. */
  lemma {:induction false} DroppingAnExpert(scores: seq<Score>, w: map<string, real>, i: nat)
    requires i < |scores| && DistinctKeys(scores, DimensionOf) && Nonnegatives(scores, w)
    ensures var total, own, rest := Present(scores, w), Weight(w, scores[i].dimension), Removed(scores, i);
            total * Aggregate(scores, w).overall
              == scores[i].score * own + (total - own) * Aggregate(rest, w).overall
  {
    hide Aggregate, Present, Weight, Removed, Nonnegatives, DistinctKeys;
    WithoutOne(scores, w, i);
  }

  /** Without non-negative weights the bound fails: two experts, one weighted `-1` against `2`. */
  lemma NegativeWeightEscapes(scores: seq<Score>, w: map<string, real>)
    requires |scores| == 2 && scores[0].dimension != scores[1].dimension
    requires scores[0].score == 1.0 && scores[1].score == 0.0
    requires Weight(w, scores[0].dimension) == 2.0 && Weight(w, scores[1].dimension) == -1.0
    ensures Aggregate(scores, w).overall == 2.0
  {
    assert DistinctKeys(scores, DimensionOf);
    DimensionsOfDistinct(scores);
    var weights, terms := Weights(Listed(scores), w), Terms(scores, w);
    assert Sum(weights, 1) == 2.0 by { assert Sum(weights, 0) == 0.0; }
    assert Sum(terms, 1) == 2.0 by { assert Sum(terms, 0) == 0.0; }
    assert terms[1] == 0.0;
  }
}

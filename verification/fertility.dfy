/** Fertility rates (`get_fert`): the fitted fertility curve, zeroed outside
    the reproductive ages and wherever it is negative, averaged within each
    cohort's bucket and halved for the two sexes, broadcast over the J ability
    types, together with the zero matrix that seeds the children.
    Line numbers in the comments of this module refer to
    `Python/3_demographics/demographics.py`. */
module Fertility {
  import opened Bins

  /** Point i of `np.linspace(15, 75, 60)`: the grid steps by 60/59, not by 1. */
  function GridAge(i: int): (age: real)
    ensures i == 0 ==> age == 15.0
    ensures i == Points - 1 ==> age == 75.0
  {
    15.0 + (i as real) * 60.0 / 59.0
  }

  /** The grid runs from 15 to 75 inclusive, and its point 35 is the first
      above age 50. */
  lemma GridAges(i: int)
    ensures GridAge(0) == 15.0 && GridAge(59) == 75.0
    ensures GridAge(i) > 50.0 <==> i >= 35
    ensures 0 <= i ==> GridAge(i) >= 10.0
  {
    assert GridAge(i) > 50.0 <==> (i as real) * 60.0 > 35.0 * 59.0;
  }

  /** `fert_rate` after the loop of lines 186-190. */
  function Clamp(fit: seq<real>): (c: seq<real>)
    ensures |c| == |fit|
    ensures NonNegative(c)
    ensures forall i :: 0 <= i < |fit| && (GridAge(i) > 50.0 || GridAge(i) < 10.0) ==> c[i] == 0.0
    ensures forall i :: 0 <= i < |fit| && 10.0 <= GridAge(i) <= 50.0 && fit[i] >= 0.0 ==> c[i] == fit[i]
    ensures forall i :: 0 <= i < |fit| && fit[i] < 0.0 ==> c[i] == 0.0
  {
    seq(|fit|, i requires 0 <= i < |fit| =>
      var r := if GridAge(i) > 50.0 || GridAge(i) < 10.0 then 0.0 else fit[i];
      if r < 0.0 then 0.0 else r)
  }

  /** On the grid the window is the first 35 points: from point 35 on the rate
      is 0, and before it the rate is the fitted value with negatives raised to 0. */
  lemma ClampWindow(fit: seq<real>, i: int)
    requires 0 <= i < |fit|
    ensures i >= 35 ==> Clamp(fit)[i] == 0.0
    ensures i < 35 ==> Clamp(fit)[i] == if fit[i] < 0.0 then 0.0 else fit[i]
  {
    GridAges(i);
  }

  /** `fert_rate_condensed / 2`: half the mean of each cohort's bucket. */
  function Cohorts(fit: seq<real>, S: int): (r: seq<real>)
    requires |fit| == Points && 1 <= S <= 60
    ensures |r| == S
  {
    HalfMeans(Clamp(fit), S)
  }

  /** Half the mean of each of the S buckets of 60 clamped rates. */
  function HalfMeans(c: seq<real>, S: int): (r: seq<real>)
    requires |c| == Points && 1 <= S <= 60
    ensures |r| == S
  {
    var m := Means(c, S);
    seq(S, s requires 0 <= s < S => m[s] / 2.0)
  }

  /** `fert_rate_condensed`: the mean of each of the S buckets. */
  function Means(c: seq<real>, S: int): (r: seq<real>)
    requires |c| == Points && 1 <= S <= 60
    ensures |r| == S
  {
    seq(S, s requires 0 <= s < S =>
      BucketNonEmpty(c, S, s);
      Mean(Bucket(c, S, s)))
  }

  lemma WidthPositive(S: int)
    requires 1 <= S <= 60
    ensures Width(S) >= 1
  {
  }

  /** With at most 60 cohorts every bucket of the 60 points holds at least one. */
  lemma BucketNonEmpty(c: seq<real>, S: int, s: int)
    requires |c| == Points && 1 <= S <= 60 && 0 <= s < S
    ensures |Bucket(c, S, s)| >= 1
  {
    BucketEnd(S, s);
    BucketFull(c, S, s);
    WidthPositive(S);
  }

  /** Every cohort rate is half a mean of non-negative rates, so it is non-negative. */
  lemma CohortsNonNegative(fit: seq<real>, S: int)
    requires |fit| == Points && 1 <= S <= 60
    ensures NonNegative(Cohorts(fit, S))
  {
    forall s | 0 <= s < S
      ensures Cohorts(fit, S)[s] >= 0.0
    {
      CohortNonNegative(fit, S, s);
    }
  }

  /** Cohort s's fertility rate is non-negative. */
  lemma CohortNonNegative(fit: seq<real>, S: int, s: int)
    requires |fit| == Points && 1 <= S <= 60 && 0 <= s < S
    ensures Cohorts(fit, S)[s] >= 0.0
  {
    var c := Clamp(fit);
    var lo := s * Width(S);
    BucketEnd(S, s);
    BucketFull(c, S, s);
    WidthPositive(S);
    MulMono(s, s + 1, Width(S));
    var b := Bucket(c, S, s);
    assert b == c[lo..lo + Width(S)];
    assert NonNegative(b) by {
      forall k | 0 <= k < |b| ensures b[k] >= 0.0 {
        assert b[k] == c[lo + k];
      }
    }
    assert Means(c, S)[s] == Mean(b);
    MeanNonNegative(b);
  }

  /** A cohort whose first grid point is past age 50 lies wholly outside the
      window, and its rate is exactly 0. */
  lemma CohortsPastWindowZero(fit: seq<real>, S: int, s: int)
    requires |fit| == Points && 1 <= S <= 60 && 0 <= s < S
    requires GridAge(s * Width(S)) > 50.0
    ensures Cohorts(fit, S)[s] == 0.0
  {
    var c := Clamp(fit);
    BucketEnd(S, s);
    BucketFull(c, S, s);
    WidthPositive(S);
    var b := Bucket(c, S, s);
    GridAges(s * Width(S));
    forall k | 0 <= k < |b|
      ensures b[k] == 0.0
    {
      MulMono(s, s + 1, Width(S));
      assert b[k] == c[s * Width(S) + k];
      ClampWindow(fit, s * Width(S) + k);
    }
    SumZero(b);
  }

  lemma {:induction false} SumZero(v: seq<real>)
    requires forall k :: 0 <= k < |v| ==> v[k] == 0.0
    ensures Sum(v) == 0.0
  {
    if |v| > 0 {
      SumZero(v[1..]);
    }
  }

  /** Halving a broadcast matrix halves the vector it broadcasts. */
  lemma HalveTile(v: seq<real>, J: nat)
    ensures DivideBy(Tile(v, J), 2.0) == Tile(seq(|v|, s requires 0 <= s < |v| => v[s] / 2.0), J)
  {
    var a, b := DivideBy(Tile(v, J), 2.0), Tile(seq(|v|, s requires 0 <= s < |v| => v[s] / 2.0), J);
    forall r | 0 <= r < |v|
      ensures a[r] == b[r]
    {
    }
  }

  /** `get_fert(S, J)` for the fitted values `fit`. */
  method GetFert(fit: seq<real>, S: int, J: int) returns (fert: seq<seq<real>>, children: seq<seq<real>>)
    requires |fit| == Points && 1 <= S <= 60 && J >= 1
    ensures fert == Tile(Cohorts(fit, S), J)
    ensures IsMatrix(fert, S, J) && UniformColumns(fert)
    ensures forall s, j :: 0 <= s < S && 0 <= j < J ==> fert[s][j] >= 0.0
    ensures children == Zeros(15, J)
    ensures forall i, j :: 0 <= i < 15 && 0 <= j < J ==> children[i][j] == 0.0
  {
    var clamped := ClampRates(fit);
    var means := CondenseMeans(clamped, S);
    fert := DivideBy(Tile(means, J), 2.0);
    HalveTile(means, J);
    CohortsNonNegative(fit, S);
    children := Zeros(15, J);
  }

  /** Lines 186-190: the in-place clamp of the fitted rates. */
  method ClampRates(fit: seq<real>) returns (clamped: seq<real>)
    requires |fit| == Points
    ensures clamped == Clamp(fit)
  {
    var rate := new real[Points](i => if 0 <= i < |fit| then fit[i] else 0.0);
    for i := 0 to Points
      invariant forall k :: 0 <= k < i ==> rate[k] == Clamp(fit)[k]
      invariant forall k :: i <= k < Points ==> rate[k] == fit[k]
    {
      if GridAge(i) > 50.0 || GridAge(i) < 10.0 {
        rate[i] := 0.0;
      }
      if rate[i] < 0.0 {
        rate[i] := 0.0;
      }
    }
    clamped := rate[..];
  }

  /** Lines 191-195: the mean of each cohort's bucket. */
  method CondenseMeans(rate: seq<real>, S: int) returns (means: seq<real>)
    requires |rate| == Points && 1 <= S <= 60
    ensures means == Means(rate, S)
  {
    var w := Width(S);
    WidthPositive(S);
    var condensed := new real[S](_ => 0.0);
    for s := 0 to S
      invariant forall k :: 0 <= k < s ==> condensed[k] == Means(rate, S)[k]
    {
      BucketEnd(S, s);
      BucketFull(rate, S, s);
      condensed[s] := Mean(rate[s * w..(s + 1) * w]);
    }
    means := condensed[..];
  }
}

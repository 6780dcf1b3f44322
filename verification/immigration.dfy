/** Immigration rates (`get_immigration`): the 2010 population aged one year
    and thinned by survival predicts the 2011 population; the ratio of the
    observed to the predicted count is the immigration factor, which is fitted
    and then compounded into S-1 cohorts, with the first 14 fitted values kept
    for the children.
    Line numbers in the comments of this module refer to
    `Python/3_demographics/demographics.py`. */
module Immigration {
  import opened Bins
  import opened Inputs
  import Survival

  /** `surv_array` of line 140: the child rates for ages 0..14 followed by the
      60 single-year rates of `get_survival(60, 1)`. */
  function SurvivalByAge(tb: Tables): (r: seq<real>)
    requires tb.WellFormed()
    ensures |r| == 75
  {
    tb.childRate + Survival.Cohorts(tb.survFit, 60)
  }

  /** `pop_2010[1:76] * surv_array` (line 142): the people aged 1..75 in 2010
      who are expected to live one more year. */
  function Survivors(pop: seq<real>, surv: seq<real>): (p: seq<real>)
    requires |pop| >= 76 && |surv| == 75
    ensures |p| == 75
  {
    seq(75, i requires 0 <= i < 75 => pop[1..76][i] * surv[i])
  }

  function Predicted(tb: Tables): (p: seq<real>)
    requires tb.WellFormed()
    ensures |p| == 75
  {
    Survivors(tb.pop2010, SurvivalByAge(tb))
  }

  /** The 75th prediction is 0, because the terminal single-year survival
      rate is 0: its percent change has no meaning, which is why it is dropped. */
  lemma TerminalPredictionIsZero(tb: Tables)
    requires tb.WellFormed()
    ensures Predicted(tb)[74] == 0.0
  {
    Survival.SingleYearCohorts(tb.survFit);
  }

  /** The kept predictions are all nonzero, so that no percent change divides by 0. */
  predicate PredictionsNonZero(tb: Tables)
    requires tb.WellFormed()
  {
    forall i :: 0 <= i < 74 ==> Predicted(tb)[i] != 0.0
  }

  /** Lines 147-149: one plus the percent change from predicted to observed,
      without the last entry. It is the ratio of observed to predicted. */
  function PercentChange(pred: seq<real>, after: seq<real>): (f: seq<real>)
    requires |pred| == 75 && |after| == 75
    requires forall i :: 0 <= i < 74 ==> pred[i] != 0.0
    ensures |f| == 74
    ensures forall i :: 0 <= i < 74 ==> f[i] == after[i] / pred[i]
  {
    var change := seq(74, i requires 0 <= i < 74 => (after[i] - pred[i]) / pred[i] + 1.0);
    assert forall i :: 0 <= i < 74 ==> change[i] == after[i] / pred[i] by {
      forall i | 0 <= i < 74 ensures change[i] == after[i] / pred[i] {
        ChangePlusOne(after[i], pred[i]);
      }
    }
    change
  }

  lemma ChangePlusOne(a: real, p: real)
    requires p != 0.0
    ensures (a - p) / p + 1.0 == a / p
  {
    assert (a - p) / p == a / p - p / p;
  }

  /** `perc_change` as it enters the fit: entry i compares the 2011 count at
      age i+2 with the 2010 count at age i+1 times the survival rate of index i. */
  function Factor(tb: Tables): (f: seq<real>)
    requires tb.WellFormed() && PredictionsNonZero(tb)
    ensures |f| == 74
    ensures forall i :: 0 <= i < 74 ==>
              Predicted(tb)[i] == tb.pop2010[i + 1] * SurvivalByAge(tb)[i] &&
              f[i] == tb.pop2011[i + 2] / (tb.pop2010[i + 1] * SurvivalByAge(tb)[i])
  {
    PercentChange(Predicted(tb), tb.pop2011[2..77])
  }

  /** The fitted factors of the immigration model. */
  function Fitted(tb: Tables): seq<real>
    requires tb.WellFormed() && PredictionsNonZero(tb)
  {
    tb.immFit(Factor(tb))
  }

  /** `imm_rate_condensed` (lines 153-158): S-1 products of buckets of
      `im_array[15:76]`. */
  function Cohorts(fitted: seq<real>, S: int): (r: seq<real>)
    requires |fitted| == 74 && S >= 1
    ensures |r| == S - 1
  {
    var tail := fitted[15..];
    seq(S - 1, s requires 0 <= s < S - 1 => Prod(Bucket(tail, S, s)))
  }

  /** Cohort s compounds the fitted factors at indices 15 + s*(60/S) up to
      15 + (s+1)*(60/S) - 1, and the buckets never run past the 74 values. */
  lemma CohortOffsets(fitted: seq<real>, S: int, s: int)
    requires |fitted| == 74 && S >= 1 && 0 <= s < S - 1
    ensures 15 + (s + 1) * Width(S) <= 74
    ensures Cohorts(fitted, S)[s] == Prod(fitted[15 + s * Width(S)..15 + (s + 1) * Width(S)])
  {
    BucketEnd(S, s);
    BucketFull(fitted[15..], S, s);
    MulMono(s, s + 1, Width(S));
    assert fitted[15..][s * Width(S)..(s + 1) * Width(S)]
        == fitted[15 + s * Width(S)..15 + (s + 1) * Width(S)];
  }

  /** `get_immigration(S, J)`. */
  method GetImmigration(tb: Tables, S: int, J: int) returns (imm: seq<seq<real>>, childIm: seq<real>)
    requires tb.WellFormed() && S >= 1 && J >= 1
    requires PredictionsNonZero(tb) && |Fitted(tb)| == 74
    ensures imm == Tile(Cohorts(Fitted(tb), S), J)
    ensures IsMatrix(imm, S - 1, J) && UniformColumns(imm)
    ensures childIm == Fitted(tb)[..14] && |childIm| == 14
  {
    var surv := Survival.GetSurvival(tb.survFit, 60, 1);
    var survAll := tb.childRate + Column(surv, 0);
    assert survAll == SurvivalByAge(tb);
    var pred := Survivors(tb.pop2010, survAll);
    var change := PercentChange(pred, tb.pop2011[2..77]);
    var fitted := tb.immFit(change);
    var tail := fitted[15..];
    var w := Width(S);
    var condensed := new real[S - 1](_ => 0.0);
    for s := 0 to S - 1
      invariant forall k :: 0 <= k < s ==> condensed[k] == Prod(Bucket(tail, S, k))
    {
      BucketEnd(S, s);
      BucketFull(tail, S, s);
      condensed[s] := Prod(tail[s * w..(s + 1) * w]);
    }
    assert condensed[..] == Cohorts(fitted, S);
    imm := Tile(condensed[..], J);
    childIm := fitted[0..14];
  }
}

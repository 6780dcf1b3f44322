/** Survival rates (`get_survival`): the fitted one-year survival curve, clamped
    at 1.0, compounded within each cohort's integer-width bucket, with the
    terminal cohort forced to die, broadcast over the J ability types.
    Line numbers in the comments of this module refer to
    `Python/3_demographics/demographics.py`. */
module Survival {
  import opened Bins

  /** The clamp of the fitted survival curve: values above 1.0 become exactly
      1.0 and every other value, a negative one included, is left as it is. */
  function ClampAtOne(v: seq<real>): (c: seq<real>)
    ensures |c| == |v|
    ensures forall i :: 0 <= i < |v| ==> c[i] <= 1.0
    ensures forall i :: 0 <= i < |v| && v[i] > 1.0 ==> c[i] == 1.0
    ensures forall i :: 0 <= i < |v| && v[i] <= 1.0 ==> c[i] == v[i]
  {
    seq(|v|, i requires 0 <= i < |v| => if v[i] > 1.0 then 1.0 else v[i])
  }

  /** `surv_rate_condensed`: cohort s is the product of the clamped values in its
      bucket, and the last cohort is 0. */
  function Cohorts(fit: seq<real>, S: int): (r: seq<real>)
    requires |fit| == Points && S >= 1
    ensures |r| == S
  {
    Compound(ClampAtOne(fit), S)
  }

  /** Products of the S buckets of the 60 clamped values, the last replaced by 0. */
  function Compound(c: seq<real>, S: int): (r: seq<real>)
    requires |c| == Points && S >= 1
    ensures |r| == S
  {
    seq(S, s requires 0 <= s < S =>
      if s == S - 1 then 0.0 else Prod(Bucket(c, S, s)))
  }

  /** `get_survival(S, J)` for the fitted values `fit`. */
  method GetSurvival(fit: seq<real>, S: int, J: int) returns (surv: seq<seq<real>>)
    requires |fit| == Points && S >= 1 && J >= 1
    ensures surv == Tile(Cohorts(fit, S), J)
    ensures IsMatrix(surv, S, J) && UniformColumns(surv)
    ensures surv[S - 1] == seq(J, _ => 0.0)
  {
    var rate := new real[Points](i => if 0 <= i < |fit| then fit[i] else 0.0);
    for i := 0 to rate.Length
      invariant forall k :: 0 <= k < i ==> rate[k] == ClampAtOne(fit)[k]
      invariant forall k :: i <= k < rate.Length ==> rate[k] == fit[k]
    {
      if rate[i] > 1.0 {
        rate[i] := 1.0;
      }
    }
    ghost var clamped := rate[..];
    assert clamped == ClampAtOne(fit);
    var w := Width(S);
    var condensed := new real[S](_ => 0.0);
    for s := 0 to S
      invariant rate[..] == clamped
      invariant forall k :: 0 <= k < s ==> condensed[k] == Prod(Bucket(clamped, S, k))
    {
      BucketEnd(S, s);
      BucketFull(clamped, S, s);
      condensed[s] := Prod(rate[s * w..(s + 1) * w]);
    }
    condensed[S - 1] := 0.0;
    assert condensed[..] == Compound(clamped, S);
    surv := Tile(condensed[..], J);
  }

  /** Every cohort but the last is the product of the clamped values at
      indices s*(60/S) up to (s+1)*(60/S) - 1, all inside the 60 points. */
  lemma CohortOffsets(fit: seq<real>, S: int, s: int)
    requires |fit| == Points && S >= 1 && 0 <= s < S - 1
    ensures 0 <= s * Width(S) <= (s + 1) * Width(S) <= Points
    ensures Cohorts(fit, S)[s] == Prod(ClampAtOne(fit)[s * Width(S)..(s + 1) * Width(S)])
  {
    BucketEnd(S, s);
    BucketFull(ClampAtOne(fit), S, s);
    MulMono(s, s + 1, Width(S));
  }

  /** Only the first S*(60/S) fitted values matter: the points past the last
      full bucket never enter any cohort. */
  lemma TailUnused(fit: seq<real>, fit': seq<real>, S: int)
    requires |fit| == Points && |fit'| == Points && S >= 1
    requires forall i :: 0 <= i < S * Width(S) ==> fit[i] == fit'[i]
    ensures Cohorts(fit, S) == Cohorts(fit', S)
  {
    forall s | 0 <= s < S - 1
      ensures Cohorts(fit, S)[s] == Cohorts(fit', S)[s]
    {
      CohortAgrees(fit, fit', S, s);
    }
  }

  /** Cohort s agrees for two curves that agree on the first S*(60/S) points. */
  lemma CohortAgrees(fit: seq<real>, fit': seq<real>, S: int, s: int)
    requires |fit| == Points && |fit'| == Points && S >= 1 && 0 <= s < S - 1
    requires forall i :: 0 <= i < S * Width(S) ==> fit[i] == fit'[i]
    ensures Cohorts(fit, S)[s] == Cohorts(fit', S)[s]
  {
    var c, c' := ClampAtOne(fit), ClampAtOne(fit');
    var lo, hi := s * Width(S), (s + 1) * Width(S);
    CohortOffsets(fit, S, s);
    CohortOffsets(fit', S, s);
    MulMono(s + 1, S, Width(S));
    forall i | lo <= i < hi
      ensures c[i] == c'[i]
    {
      assert fit[i] == fit'[i];
    }
    assert c[lo..hi] == c'[lo..hi];
  }

  /** When the fitted curve never goes negative, every cohort rate is a
      probability. */
  lemma CohortsAreProbabilities(fit: seq<real>, S: int)
    requires |fit| == Points && S >= 1
    requires NonNegative(fit)
    ensures AllIn(Cohorts(fit, S), 0.0, 1.0)
  {
    var c := ClampAtOne(fit);
    forall s | 0 <= s < S - 1
      ensures 0.0 <= Cohorts(fit, S)[s] <= 1.0
    {
      BucketEnd(S, s);
      var b := Bucket(c, S, s);
      assert AllIn(b, 0.0, 1.0) by {
        forall k | 0 <= k < |b| ensures 0.0 <= b[k] <= 1.0 {
          MulMono(s, s + 1, Width(S));
          assert b[k] == c[s * Width(S) + k];
        }
      }
      ProdUnit(b);
    }
  }

  /** With one cohort per year (S = 60) each cohort is the clamped single-year
      value, so no rate exceeds 1.0, and the last is 0. */
  lemma SingleYearCohorts(fit: seq<real>)
    requires |fit| == Points
    ensures Cohorts(fit, 60)[59] == 0.0
    ensures forall s :: 0 <= s < 59 ==> Cohorts(fit, 60)[s] == ClampAtOne(fit)[s] <= 1.0
  {
    forall s | 0 <= s < 59
      ensures Cohorts(fit, 60)[s] == ClampAtOne(fit)[s]
    {
      var b := Bucket(ClampAtOne(fit), 60, s);
      assert b == [ClampAtOne(fit)[s]];
      assert Prod(b) == b[0] * Prod(b[1..]);
    }
  }

  /** The missing lower clamp shows once a bucket holds two values: two fitted
      values of -2.0 in the first 2-year bucket (S = 30) compound to 4.0. */
  lemma CohortCanExceedOne()
    ensures Cohorts(seq(Points, i => if i < 2 then -2.0 else 0.5), 30)[0] == 4.0
  {
    var fit := seq(Points, i => if i < 2 then -2.0 else 0.5);
    var b := Bucket(ClampAtOne(fit), 30, 0);
    assert b == [-2.0, -2.0];
    assert Prod(b) == -2.0 * Prod([-2.0]);
    assert Prod([-2.0]) == -2.0 * Prod([]);
  }
}

/** The first slice of omega (the start of `get_omega`): the 2010 population of
    the working ages 16..75 as shares of that range, summed into the S cohorts
    that `np.linspace(16, 76, S+1)` delimits, and split evenly over J ability
    types.
    Line numbers in the comments of this module refer to
    `Python/3_demographics/demographics.py`. */
module Initial {
  import opened Bins

  /** The working range `data[16:76]` holds ages 16..75: 60 ages. */
  const FirstAge := 16
  const Ages := 60

  /** The 2010 column of `data` after the division of line 225: every count of
      the working range over that range's own total, not the whole table's. */
  function Shares(pop: seq<real>): (r: seq<real>)
    requires |pop| >= FirstAge + Ages && Sum(pop[FirstAge..FirstAge + Ages]) != 0.0
    ensures |r| == Ages && Sum(r) == 1.0
  {
    var counts := pop[FirstAge..FirstAge + Ages];
    var total := Sum(counts);
    var r := seq(Ages, k requires 0 <= k < Ages => counts[k] / total);
    SumDivided(counts, total);
    assert r == seq(|counts|, k requires 0 <= k < |counts| => counts[k] / total);
    assert total / total == 1.0;
    r
  }

  /** Entry k of `age_groups = np.linspace(16, 76, S+1)`. */
  function Boundary(S: int, k: int): (b: real)
    requires S >= 1
    ensures k == 0 ==> b == FirstAge as real
    ensures k == S ==> b == (FirstAge + Ages) as real
  {
    FirstAge as real + (Ages as real) * (k as real) / (S as real)
  }

  /** The mask of lines 233-234: `age_groups[s] <= age < age_groups[s+1]`. */
  predicate InCohort(S: int, s: int, age: int)
    requires S >= 1
  {
    Boundary(S, s) <= age as real < Boundary(S, s + 1)
  }

  /** Lines 232-234 summed from working-range index k on: the shares of the
      ages at index k or later that fall in cohort s. */
  function CohortShareFrom(shares: seq<real>, S: int, s: int, k: nat): real
    requires S >= 1 && k <= |shares|
    decreases |shares| - k
  {
    if k == |shares| then 0.0
    else (if InCohort(S, s, FirstAge + k) then shares[k] else 0.0) + CohortShareFrom(shares, S, s, k + 1)
  }

  /** `new_omega[s]` before the tiling of line 235. */
  function CohortShare(shares: seq<real>, S: int, s: int): real
    requires S >= 1
  {
    CohortShareFrom(shares, S, s, 0)
  }

  /** `new_omega` before the tiling of line 235. */
  function CohortShares(shares: seq<real>, S: int): (v: seq<real>)
    requires S >= 1
    ensures |v| == S
  {
    seq(S, s requires 0 <= s < S => CohortShare(shares, S, s))
  }

  /** Lines 235-237: the cohort shares broadcast over J columns and divided by J. */
  function InitialSlice(shares: seq<real>, S: int, J: int): (m: seq<seq<real>>)
    requires S >= 1 && J >= 1
    ensures IsMatrix(m, S, J)
  {
    DivideBy(Tile(CohortShares(shares, S), J), J as real)
  }

  /** Index, in the working range, of the first age of cohort s: the ceiling
      of 60*s/S. */
  function Lo(S: int, s: int): int
    requires S >= 1
  {
    (Ages * s + S - 1) / S
  }

  /** The ceiling is at most k exactly when a <= k*S. */
  lemma CeilingAtMost(a: int, S: int, k: int)
    requires S >= 1
    ensures (a + S - 1) / S <= k <==> a <= k * S
  {
    var q, r := (a + S - 1) / S, (a + S - 1) % S;
    assert a + S - 1 == q * S + r && 0 <= r < S;
    if q <= k {
      MulMono(q, k, S);
      assert a <= k * S;
    } else {
      MulMono(k + 1, q, S);
      assert (k + 1) * S == k * S + S;
      assert a > k * S;
    }
  }

  /** For a positive S, x/S <= k exactly when x <= k*S. */
  lemma QuotientAtMost(x: real, S: real, k: real)
    requires S > 0.0
    ensures x / S <= k <==> x <= k * S
  {
    ProductAtMost(x / S, S, k, x);
  }

  lemma ProductAtMost(q: real, S: real, k: real, x: real)
    requires S > 0.0 && q * S == x
    ensures q <= k <==> x <= k * S
  {
    if q <= k {
      MulMonoReal(q, k, S);
    } else {
      MulStrictReal(k, q, S);
    }
  }

  lemma MulStrictReal(a: real, b: real, c: real)
    requires a < b && 0.0 < c
    ensures a * c < b * c
  {
  }

  /** Cohort boundary s is at most the working-range index k exactly when
      Lo(S, s) is. */
  lemma BoundaryAtMost(S: int, s: int, k: int)
    requires S >= 1
    ensures Boundary(S, s) <= (FirstAge + k) as real <==> Lo(S, s) <= k
  {
    QuotientAtMost((Ages as real) * (s as real), S as real, k as real);
    assert (Ages as real) * (s as real) == (Ages * s) as real;
    assert (k as real) * (S as real) == (k * S) as real;
    CeilingAtMost(Ages * s, S, k);
  }

  /** The mask of cohort s selects exactly the working-range indices
      Lo(S, s) .. Lo(S, s+1) - 1. */
  lemma InCohortRange(S: int, s: int, k: int)
    requires S >= 1
    ensures InCohort(S, s, FirstAge + k) <==> Lo(S, s) <= k < Lo(S, s + 1)
  {
    BoundaryAtMost(S, s, k);
    BoundaryAtMost(S, s + 1, k);
  }

  /** The cohorts tile the working range: the first starts at index 0, the
      last ends at index 60, and each starts no later than the next. */
  lemma LoBounds(S: int, s: int)
    requires S >= 1 && 0 <= s < S
    ensures Lo(S, 0) == 0 && Lo(S, S) == Ages
    ensures 0 <= Lo(S, s) <= Lo(S, s + 1) <= Ages
  {
    CeilingAtMost(0, S, 0);
    CeilingAtMost(Ages * S, S, Ages);
    CeilingAtMost(Ages * S, S, Ages - 1);
    assert (Ages - 1) * S == Ages * S - S;
    CeilingAtMost(Ages * (s + 1), S, Lo(S, s + 1));
    CeilingAtMost(Ages * s, S, Lo(S, s + 1));
    CeilingAtMost(Ages * (s + 1), S, Ages);
    MulMono(s + 1, S, Ages);
    assert Ages * (s + 1) == Ages * s + Ages;
  }

  function Max(a: int, b: int): int
  {
    if a < b then b else a
  }

  /** The masked sum from index k on is the plain sum of the cohort's indices
      not before k. */
  lemma {:induction false} CohortShareFromRange(shares: seq<real>, S: int, s: int, k: nat)
    requires S >= 1 && 0 <= s < S && |shares| == Ages && k <= Ages
    ensures Lo(S, s) <= Lo(S, s + 1) <= Ages
    ensures CohortShareFrom(shares, S, s, k)
         == Sum(shares[Max(k, Lo(S, s))..Max(k, Lo(S, s + 1))])
    decreases Ages - k
  {
    LoBounds(S, s);
    var lo, hi := Lo(S, s), Lo(S, s + 1);
    if k < Ages {
      CohortShareFromRange(shares, S, s, k + 1);
      InCohortRange(S, s, k);
      if lo <= k < hi {
        assert shares[k..hi][1..] == shares[k + 1..hi];
      }
    }
  }

  /** Cohort s holds exactly the shares of its contiguous age range. */
  lemma CohortShareIsRangeSum(shares: seq<real>, S: int, s: int)
    requires S >= 1 && 0 <= s < S && |shares| == Ages
    ensures 0 <= Lo(S, s) <= Lo(S, s + 1) <= Ages
    ensures CohortShare(shares, S, s) == Sum(shares[Lo(S, s)..Lo(S, s + 1)])
  {
    LoBounds(S, s);
    CohortShareFromRange(shares, S, s, 0);
  }

  /** The first m cohorts together hold the shares of indices 0 .. Lo(S, m) - 1. */
  lemma {:induction false} CohortSharesPrefix(shares: seq<real>, S: int, m: nat)
    requires S >= 1 && m <= S && |shares| == Ages
    ensures 0 <= Lo(S, m) <= Ages
    ensures Sum(CohortShares(shares, S)[..m]) == Sum(shares[..Lo(S, m)])
  {
    var v := CohortShares(shares, S);
    if m == 0 {
      LoBounds(S, 0);
    } else {
      CohortSharesPrefix(shares, S, m - 1);
      LoBounds(S, m - 1);
      CohortShareIsRangeSum(shares, S, m - 1);
      assert v[..m] == v[..m - 1] + [v[m - 1]];
      SumAppend(v[..m - 1], [v[m - 1]]);
      SumSplit(shares, 0, Lo(S, m - 1), Lo(S, m));
      assert shares[..Lo(S, m)] == shares[0..Lo(S, m)];
      assert shares[..Lo(S, m - 1)] == shares[0..Lo(S, m - 1)];
    }
  }

  /** Every age of the working range lies in exactly one cohort, so the cohort
      shares add up to the whole range. */
  lemma CohortSharesTotal(shares: seq<real>, S: int)
    requires S >= 1 && |shares| == Ages
    ensures Sum(CohortShares(shares, S)) == Sum(shares)
  {
    CohortSharesPrefix(shares, S, S);
    LoBounds(S, 0);
    assert CohortShares(shares, S)[..S] == CohortShares(shares, S);
    assert shares[..Ages] == shares;
  }

  /** A row of the initial slice sums to its cohort's share. */
  lemma RowTotal(v: seq<real>, J: int, r: int)
    requires J >= 1 && 0 <= r < |v|
    ensures Sum(DivideBy(Tile(v, J), J as real)[r]) == v[r]
  {
    var row := DivideBy(Tile(v, J), J as real)[r];
    assert row == seq(J, _ => v[r] / (J as real));
    SumConstant(J, v[r] / (J as real));
  }

  /** The initial slice of omega sums to 1 over all S*J entries. */
  lemma InitialSliceTotal(shares: seq<real>, S: int, J: int)
    requires S >= 1 && J >= 1 && |shares| == Ages && Sum(shares) == 1.0
    ensures Total(InitialSlice(shares, S, J)) == 1.0
  {
    var v := CohortShares(shares, S);
    var m := InitialSlice(shares, S, J);
    var rows := seq(|m|, r requires 0 <= r < |m| => Sum(m[r]));
    forall r | 0 <= r < S
      ensures rows[r] == v[r]
    {
      RowTotal(v, J, r);
    }
    assert rows == v;
    CohortSharesTotal(shares, S);
  }
}

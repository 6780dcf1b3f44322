/** The omega projection (`get_omega`): the initial slice, the children seeded
    as if the system had run steadily, and the T-period recurrence that ages
    the cohorts and the children one step per period.
    Line numbers in the comments of this module refer to
    `Python/3_demographics/demographics.py`. */
module Omega {
  import opened Bins
  import opened Inputs
  import Survival
  import Immigration
  import Fertility
  import Initial

  /** Ages 0..14 are tracked one year at a time outside the cohorts. */
  const ChildAges := 15

  /** The rate arrays the recurrence reads: survival and fertility S-by-J,
      immigration (S-1)-by-J, the 15 child survival rates and the 14 child
      immigration factors. */
  datatype Rates = Rates(
    surv: seq<seq<real>>,
    imm: seq<seq<real>>,
    fert: seq<seq<real>>,
    childRate: seq<real>,
    childIm: seq<real>)
  {
    predicate Shaped(S: int, J: int)
    {
      IsMatrix(surv, S, J) && IsMatrix(imm, S - 1, J) && IsMatrix(fert, S, J)
      && |childRate| == ChildAges && |childIm| == ChildAges - 1
    }
  }

  /** One period of the projection: the omega slice and the children array. */
  datatype State = State(slice: seq<seq<real>>, children: seq<seq<real>>)
  {
    predicate Shaped(S: int, J: int)
    {
      IsMatrix(slice, S, J) && IsMatrix(children, ChildAges, J)
    }
  }

  /** Everything `get_omega(S, J, T)` needs of its tables and arguments: the
      rate models' own demands, a working range with a nonzero 2010 total, at
      most 60 cohorts, at least one period, and a single cohort only when no
      period follows the first (`imm_array[0]` does not exist then). */
  predicate Admissible(tb: Tables, S: int, J: int, T: int)
  {
    && tb.WellFormed()
    && Immigration.PredictionsNonZero(tb)
    && |Immigration.Fitted(tb)| == 74
    && Sum(tb.pop2010[Initial.FirstAge..Initial.FirstAge + Initial.Ages]) != 0.0
    && 1 <= S <= 60 && J >= 1 && T >= 1
    && (S == 1 ==> T == 1)
  }

  /** The rate arrays of lines 238-241, as the three rate models define them. */
  function RatesOf(tb: Tables, S: int, J: int): (r: Rates)
    requires Admissible(tb, S, J, 1)
    ensures r.Shaped(S, J)
  {
    var fitted := Immigration.Fitted(tb);
    Rates(
      Tile(Survival.Cohorts(tb.survFit, S), J),
      Tile(Immigration.Cohorts(fitted, S), J),
      Tile(Fertility.Cohorts(tb.fertFit, S), J),
      tb.childRate,
      fitted[..ChildAges - 1])
  }

  /** `(omega * fert_rate).sum(0)`: this period's births per ability type. */
  function Births(slice: seq<seq<real>>, fert: seq<seq<real>>, J: int): (b: seq<real>)
    requires J >= 0 && |fert| == |slice| && IsMatrix(slice, |slice|, J) && IsMatrix(fert, |fert|, J)
    ensures |b| == J
  {
    WeightedColumnSums(slice, fert, J)
  }

  /** Lines 244-247: the children of age i are the births of the initial slice
      discounted by i years of child survival and child immigration. */
  function Seed(slice: seq<seq<real>>, r: Rates, S: int, J: int): (c: seq<seq<real>>)
    requires J >= 0 && r.Shaped(S, J) && IsMatrix(slice, S, J)
    ensures IsMatrix(c, ChildAges, J)
  {
    var births := Births(slice, r.fert, J);
    seq(ChildAges, i requires 0 <= i < ChildAges =>
      seq(J, j requires 0 <= j < J =>
        births[j] * Prod(r.childRate[..i]) * Prod(r.childIm[..i])))
  }

  /** The state of period 0. */
  function Start(tb: Tables, S: int, J: int): (st: State)
    requires Admissible(tb, S, J, 1)
    ensures st.Shaped(S, J)
  {
    var slice := Initial.InitialSlice(Initial.Shares(tb.pop2010), S, J);
    State(slice, Seed(slice, RatesOf(tb, S, J), S, J))
  }

  /** Lines 250-252: the new slice. Its youngest cohort is the oldest
      children of the previous period, survived and arriving with the first
      cohort's immigration; every other cohort is the next younger one of the
      previous period times its survival and immigration. */
  function Advance(r: Rates, st: State, S: int, J: int): (slice: seq<seq<real>>)
    requires S >= 2 && J >= 0 && r.Shaped(S, J) && st.Shaped(S, J)
    ensures IsMatrix(slice, S, J)
  {
    seq(S, s requires 0 <= s < S =>
      if s == 0 then Enter(st.children[ChildAges - 1], r.childRate[ChildAges - 1], r.imm[0])
      else Survive(st.slice[s - 1], r.surv[s - 1], r.imm[s - 1]))
  }

  /** `children[-1, :] * children_rate[-1] * imm_array[0]`: the oldest children
      enter the first cohort. */
  function Enter(oldest: seq<real>, rate: real, imm: seq<real>): (row: seq<real>)
    requires |imm| == |oldest|
    ensures |row| == |oldest|
  {
    seq(|oldest|, j requires 0 <= j < |oldest| => oldest[j] * rate * imm[j])
  }

  /** One cohort row times its survival and immigration rows. */
  function Survive(cohort: seq<real>, surv: seq<real>, imm: seq<real>): (row: seq<real>)
    requires |surv| == |cohort| && |imm| == |cohort|
    ensures |row| == |cohort|
  {
    seq(|cohort|, j requires 0 <= j < |cohort| => cohort[j] * surv[j] * imm[j])
  }

  /** One children row times its survival and immigration rates. */
  function Grow(children: seq<real>, rate: real, im: real): (row: seq<real>)
    ensures |row| == |children|
  {
    seq(|children|, j requires 0 <= j < |children| => children[j] * rate * im)
  }

  /** Lines 253-255: the children age one year with their survival and
      immigration, and the newborns are `births`. */
  function Age(r: Rates, children: seq<seq<real>>, births: seq<real>, J: int): (c: seq<seq<real>>)
    requires J >= 0 && IsMatrix(children, ChildAges, J) && |births| == J
    requires |r.childRate| == ChildAges && |r.childIm| == ChildAges - 1
    ensures IsMatrix(c, ChildAges, J)
  {
    seq(ChildAges, i requires 0 <= i < ChildAges =>
      if i == 0 then births
      else Grow(children[i - 1], r.childRate[i - 1], r.childIm[i - 1]))
  }

  /** One pass of the loop of lines 249-255: the newborns are the births of
      the new slice, not of the old one. */
  function Step(r: Rates, st: State, S: int, J: int): (next: State)
    requires S >= 2 && J >= 0 && r.Shaped(S, J) && st.Shaped(S, J)
    ensures next.Shaped(S, J)
  {
    var slice := Advance(r, st, S, J);
    State(slice, Age(r, st.children, Births(slice, r.fert, J), J))
  }

  /** The state after t periods. */
  function StateAt(r: Rates, start: State, S: int, J: int, t: nat): (st: State)
    requires J >= 0 && r.Shaped(S, J) && start.Shaped(S, J) && (t == 0 || S >= 2)
    ensures st.Shaped(S, J)
  {
    if t == 0 then start else Step(r, StateAt(r, start, S, J, t - 1), S, J)
  }

  /** The slices of periods 0 .. T-1 from `start` under the rates `r`. */
  function Path(r: Rates, start: State, S: int, J: int, T: nat): (omega: seq<seq<seq<real>>>)
    requires J >= 0 && r.Shaped(S, J) && start.Shaped(S, J) && (T <= 1 || S >= 2)
    ensures |omega| == T
  {
    seq(T, t requires 0 <= t < T => StateAt(r, start, S, J, t).slice)
  }

  /** `omega_big`: the slices of periods 0 .. T-1. */
  function Projection(tb: Tables, S: int, J: int, T: int): (omega: seq<seq<seq<real>>>)
    requires Admissible(tb, S, J, T)
    ensures |omega| == T
  {
    Path(RatesOf(tb, S, J), Start(tb, S, J), S, J, T)
  }

  // ---------------------------------------------------------------------
  // Properties of the projection

  /** Slice 0 is the initial distribution, whatever the horizon T, and it
      sums to 1 over all S*J entries. */
  lemma FirstSlice(tb: Tables, S: int, J: int, T: int, T': int)
    requires Admissible(tb, S, J, T) && Admissible(tb, S, J, T')
    ensures Projection(tb, S, J, T)[0] == Projection(tb, S, J, T')[0]
    ensures Projection(tb, S, J, T)[0] == Initial.InitialSlice(Initial.Shares(tb.pop2010), S, J)
    ensures Total(Projection(tb, S, J, T)[0]) == 1.0
  {
    Initial.InitialSliceTotal(Initial.Shares(tb.pop2010), S, J);
  }

  /** Entry [s][j] of slice 0 is the normalised 2010 share of the ages of
      cohort s (working-range indices Lo(S, s) .. Lo(S, s+1) - 1, which
      `Initial.InCohortRange` ties to the boundaries 16 + 60s/S), divided by J. */
  lemma FirstSliceEntry(tb: Tables, S: int, J: int, T: int, s: int, j: int)
    requires Admissible(tb, S, J, T) && 0 <= s < S && 0 <= j < J
    ensures 0 <= Initial.Lo(S, s) <= Initial.Lo(S, s + 1) <= Initial.Ages
    ensures Projection(tb, S, J, T)[0][s][j]
         == Sum(Initial.Shares(tb.pop2010)[Initial.Lo(S, s)..Initial.Lo(S, s + 1)]) / (J as real)
  {
    var shares := Initial.Shares(tb.pop2010);
    Initial.CohortShareIsRangeSum(shares, S, s);
    PathAt(RatesOf(tb, S, J), Start(tb, S, J), S, J, T, 0);
    assert Initial.InitialSlice(shares, S, J)[s][j] == Initial.CohortShares(shares, S)[s] / (J as real);
  }

  /** A longer horizon only appends periods: the first T slices do not depend
      on how many follow. */
  lemma PathPrefix(r: Rates, start: State, S: int, J: int, T: nat, T': nat)
    requires J >= 0 && r.Shaped(S, J) && start.Shaped(S, J) && (T' <= 1 || S >= 2) && T <= T'
    ensures Path(r, start, S, J, T) == Path(r, start, S, J, T')[..T]
  {
  }

  /** The recurrence of lines 250-252 for one step: the youngest cohort is
      the oldest children of the previous period times their survival and
      the first cohort's immigration, every other cohort is the next younger
      one of the previous slice times its survival and immigration, and the
      oldest cohort of the previous slice leaves. */
  lemma SliceRecurrence(r: Rates, st: State, S: int, J: int)
    requires S >= 2 && J >= 0 && r.Shaped(S, J) && st.Shaped(S, J)
    ensures var next := Step(r, st, S, J).slice;
            && (forall j :: 0 <= j < J ==>
                  next[0][j] == st.children[ChildAges - 1][j] * r.childRate[ChildAges - 1] * r.imm[0][j])
            && (forall s, j :: 0 <= s < S - 1 && 0 <= j < J ==>
                  next[s + 1][j] == st.slice[s][j] * r.surv[s][j] * r.imm[s][j])
  {
    var next := Step(r, st, S, J).slice;
    assert next[0] == Enter(st.children[ChildAges - 1], r.childRate[ChildAges - 1], r.imm[0]);
    forall s | 0 <= s < S - 1
      ensures next[s + 1] == Survive(st.slice[s], r.surv[s], r.imm[s])
    {
    }
  }

  /** The recurrence of lines 253-255 for one step: every child ages one year
      with its survival and immigration, and the newborns are the births of
      the new slice, not of the old one. */
  lemma ChildrenRecurrence(r: Rates, st: State, S: int, J: int)
    requires S >= 2 && J >= 0 && r.Shaped(S, J) && st.Shaped(S, J)
    ensures var next := Step(r, st, S, J);
            && next.children[0] == Births(next.slice, r.fert, J)
            && (forall i, j :: 0 <= i < ChildAges - 1 && 0 <= j < J ==>
                  next.children[i + 1][j] == st.children[i][j] * r.childRate[i] * r.childIm[i])
  {
  }

  /** Period t is one step from period t-1. */
  lemma StateAtStep(r: Rates, start: State, S: int, J: int, t: int)
    requires J >= 0 && r.Shaped(S, J) && start.Shaped(S, J) && S >= 2 && 1 <= t
    ensures StateAt(r, start, S, J, t) == Step(r, StateAt(r, start, S, J, t - 1), S, J)
  {
  }

  /** Slice t of the path is the slice of the state after t periods. */
  lemma PathAt(r: Rates, start: State, S: int, J: int, T: nat, t: int)
    requires J >= 0 && r.Shaped(S, J) && start.Shaped(S, J) && (T <= 1 || S >= 2) && 0 <= t < T
    ensures Path(r, start, S, J, T)[t] == StateAt(r, start, S, J, t).slice
  {
  }

  /** Each later slice of the path is one step of the recurrence from the
      state of the period before: the path is the loop of lines 249-255 run
      from period 1 to T-1. */
  lemma PathStep(r: Rates, start: State, S: int, J: int, T: nat, t: int)
    requires J >= 0 && r.Shaped(S, J) && start.Shaped(S, J) && S >= 2 && 1 <= t < T
    ensures Path(r, start, S, J, T)[t - 1] == StateAt(r, start, S, J, t - 1).slice
    ensures Path(r, start, S, J, T)[t] == Step(r, StateAt(r, start, S, J, t - 1), S, J).slice
  {
    PathAt(r, start, S, J, T, t - 1);
    PathAt(r, start, S, J, T, t);
    StateAtStep(r, start, S, J, t);
  }

  /** The terminal cohort dies: a step does not depend on the last row of the
      previous slice. */
  lemma TerminalCohortLeaves(r: Rates, st: State, st': State, S: int, J: int)
    requires S >= 2 && J >= 0 && r.Shaped(S, J) && st.Shaped(S, J) && st'.Shaped(S, J)
    requires st.children == st'.children && st.slice[..S - 1] == st'.slice[..S - 1]
    ensures Step(r, st, S, J) == Step(r, st', S, J)
  {
    var a, b := Step(r, st, S, J).slice, Step(r, st', S, J).slice;
    forall s | 1 <= s < S
      ensures a[s] == b[s]
    {
      assert st.slice[s - 1] == st.slice[..S - 1][s - 1];
      assert st'.slice[s - 1] == st'.slice[..S - 1][s - 1];
    }
    assert a == b;
  }

  /** Column j of the weighted sum equals column 0 when both matrices have
      uniform columns. */
  lemma {:induction false} UniformWeightedSum(m: seq<seq<real>>, f: seq<seq<real>>, J: int, j: int)
    requires J >= 1 && 0 <= j < J && |f| == |m| && IsMatrix(m, |m|, J) && IsMatrix(f, |f|, J)
    requires UniformColumns(m) && UniformColumns(f)
    ensures WeightedColumnSum(m, f, j) == WeightedColumnSum(m, f, 0)
  {
    if |m| > 0 {
      assert UniformColumns(m[1..]) && UniformColumns(f[1..]);
      UniformWeightedSum(m[1..], f[1..], J, j);
    }
  }

  /** Births have the same value for every ability type. */
  lemma UniformBirths(slice: seq<seq<real>>, fert: seq<seq<real>>, J: int)
    requires J >= 1 && |fert| == |slice| && IsMatrix(slice, |slice|, J) && IsMatrix(fert, |fert|, J)
    requires UniformColumns(slice) && UniformColumns(fert)
    ensures forall j :: 0 <= j < J ==> Births(slice, fert, J)[j] == Births(slice, fert, J)[0]
  {
    forall j | 0 <= j < J
      ensures Births(slice, fert, J)[j] == Births(slice, fert, J)[0]
    {
      UniformWeightedSum(slice, fert, J, j);
    }
  }

  /** Rates broadcast over ability types. */
  predicate UniformRates(r: Rates)
  {
    UniformColumns(r.surv) && UniformColumns(r.imm) && UniformColumns(r.fert)
  }

  /** A step keeps every ability type of a cohort or child age at the same value. */
  lemma StepKeepsUniform(r: Rates, st: State, S: int, J: int)
    requires S >= 2 && J >= 1 && r.Shaped(S, J) && st.Shaped(S, J) && UniformRates(r)
    requires UniformColumns(st.slice) && UniformColumns(st.children)
    ensures UniformColumns(Step(r, st, S, J).slice) && UniformColumns(Step(r, st, S, J).children)
  {
    var next := Step(r, st, S, J);
    SliceRecurrence(r, st, S, J);
    ChildrenRecurrence(r, st, S, J);
    forall s, j | 0 <= s < S && 0 <= j < J
      ensures next.slice[s][j] == next.slice[s][0]
    {
      if s == 0 {
        assert st.children[ChildAges - 1][j] == st.children[ChildAges - 1][0];
        assert r.imm[0][j] == r.imm[0][0];
      } else {
        assert st.slice[s - 1][j] == st.slice[s - 1][0];
        assert r.surv[s - 1][j] == r.surv[s - 1][0];
        assert r.imm[s - 1][j] == r.imm[s - 1][0];
      }
    }
    UniformBirths(next.slice, r.fert, J);
    forall i, j | 0 < i < ChildAges && 0 <= j < J
      ensures next.children[i][j] == next.children[i][0]
    {
      assert st.children[i - 1][j] == st.children[i - 1][0];
    }
  }

  /** Ability types never diverge: from a start with identical columns, every
      state has identical columns. */
  lemma {:induction false} StateAtUniform(r: Rates, start: State, S: int, J: int, t: nat)
    requires J >= 1 && r.Shaped(S, J) && start.Shaped(S, J) && (t == 0 || S >= 2) && UniformRates(r)
    requires UniformColumns(start.slice) && UniformColumns(start.children)
    ensures UniformColumns(StateAt(r, start, S, J, t).slice) && UniformColumns(StateAt(r, start, S, J, t).children)
  {
    if t > 0 {
      StateAtUniform(r, start, S, J, t - 1);
      StepKeepsUniform(r, StateAt(r, start, S, J, t - 1), S, J);
    }
  }

  /** The children seeded from a slice with identical columns have identical columns. */
  lemma SeedUniform(slice: seq<seq<real>>, r: Rates, S: int, J: int)
    requires J >= 1 && r.Shaped(S, J) && IsMatrix(slice, S, J)
    requires UniformColumns(slice) && UniformColumns(r.fert)
    ensures UniformColumns(Seed(slice, r, S, J))
  {
    var c := Seed(slice, r, S, J);
    var births := Births(slice, r.fert, J);
    UniformBirths(slice, r.fert, J);
    forall i, j | 0 <= i < ChildAges && 0 <= j < J
      ensures c[i][j] == c[i][0]
    {
      assert births[j] == births[0];
    }
  }

  /** The first slice splits each cohort evenly over the ability types. */
  lemma InitialSliceUniform(shares: seq<real>, S: int, J: int)
    requires S >= 1 && J >= 1
    ensures UniformColumns(Initial.InitialSlice(shares, S, J))
  {
    var v := Initial.CohortShares(shares, S);
    var m := Initial.InitialSlice(shares, S, J);
    forall s, j | 0 <= s < S && 0 <= j < J
      ensures m[s][j] == m[s][0]
    {
      assert m[s][j] == v[s] / (J as real);
      assert m[s][0] == v[s] / (J as real);
    }
  }

  /** Every slice of omega splits each cohort evenly over the J ability types. */
  lemma ProjectionUniform(tb: Tables, S: int, J: int, T: int, t: int)
    requires Admissible(tb, S, J, T) && 0 <= t < T
    ensures UniformColumns(Projection(tb, S, J, T)[t])
  {
    var r, start := RatesOf(tb, S, J), Start(tb, S, J);
    InitialSliceUniform(Initial.Shares(tb.pop2010), S, J);
    SeedUniform(start.slice, r, S, J);
    StateAtUniform(r, start, S, J, t);
    PathAt(r, start, S, J, T, t);
  }

  predicate NonNegativeMatrix(m: seq<seq<real>>)
  {
    forall s, j :: 0 <= s < |m| && 0 <= j < |m[s]| ==> m[s][j] >= 0.0
  }

  /** Rates that are never negative. */
  predicate NonNegativeRates(r: Rates)
  {
    NonNegativeMatrix(r.surv) && NonNegativeMatrix(r.imm) && NonNegativeMatrix(r.fert)
    && NonNegative(r.childRate) && NonNegative(r.childIm)
  }

  lemma {:induction false} WeightedSumNonNegative(m: seq<seq<real>>, f: seq<seq<real>>, j: int)
    requires 0 <= j && |f| == |m| && (forall r :: 0 <= r < |m| ==> j < |m[r]| && j < |f[r]|)
    requires NonNegativeMatrix(m) && NonNegativeMatrix(f)
    ensures WeightedColumnSum(m, f, j) >= 0.0
  {
    if |m| > 0 {
      assert NonNegativeMatrix(m[1..]) && NonNegativeMatrix(f[1..]);
      WeightedSumNonNegative(m[1..], f[1..], j);
      MulMonoReal(0.0, m[0][j], f[0][j]);
    }
  }

  /** With non-negative rates a step keeps every population share non-negative. */
  lemma StepKeepsNonNegative(r: Rates, st: State, S: int, J: int)
    requires S >= 2 && J >= 0 && r.Shaped(S, J) && st.Shaped(S, J) && NonNegativeRates(r)
    requires NonNegativeMatrix(st.slice) && NonNegativeMatrix(st.children)
    ensures NonNegativeMatrix(Step(r, st, S, J).slice) && NonNegativeMatrix(Step(r, st, S, J).children)
  {
    var slice := Step(r, st, S, J).slice;
    SliceRecurrence(r, st, S, J);
    ChildrenRecurrence(r, st, S, J);
    forall s, j | 0 <= s < S && 0 <= j < J
      ensures slice[s][j] >= 0.0
    {
      if s == 0 {
        NonNegativeProduct3(st.children[ChildAges - 1][j], r.childRate[ChildAges - 1], r.imm[0][j]);
      } else {
        NonNegativeProduct3(st.slice[s - 1][j], r.surv[s - 1][j], r.imm[s - 1][j]);
      }
    }
    var children := Step(r, st, S, J).children;
    forall i, j | 0 <= i < ChildAges && 0 <= j < J
      ensures children[i][j] >= 0.0
    {
      if i == 0 {
        WeightedSumNonNegative(slice, r.fert, j);
      } else {
        NonNegativeProduct3(st.children[i - 1][j], r.childRate[i - 1], r.childIm[i - 1]);
      }
    }
  }

  /** From a non-negative start under non-negative rates every state is
      non-negative. */
  lemma {:induction false} StateAtNonNegative(r: Rates, start: State, S: int, J: int, t: nat)
    requires J >= 0 && r.Shaped(S, J) && start.Shaped(S, J) && (t == 0 || S >= 2) && NonNegativeRates(r)
    requires NonNegativeMatrix(start.slice) && NonNegativeMatrix(start.children)
    ensures NonNegativeMatrix(StateAt(r, start, S, J, t).slice)
    ensures NonNegativeMatrix(StateAt(r, start, S, J, t).children)
  {
    if t > 0 {
      StateAtNonNegative(r, start, S, J, t - 1);
      StepKeepsNonNegative(r, StateAt(r, start, S, J, t - 1), S, J);
    }
  }

  /** The seeded children are non-negative when the initial slice and the rates are. */
  lemma SeedNonNegative(slice: seq<seq<real>>, r: Rates, S: int, J: int)
    requires J >= 0 && r.Shaped(S, J) && IsMatrix(slice, S, J)
    requires NonNegativeMatrix(slice) && NonNegativeRates(r)
    ensures NonNegativeMatrix(Seed(slice, r, S, J))
  {
    var c := Seed(slice, r, S, J);
    var births := Births(slice, r.fert, J);
    forall i, j | 0 <= i < ChildAges && 0 <= j < J
      ensures c[i][j] >= 0.0
    {
      WeightedSumNonNegative(slice, r.fert, j);
      assert NonNegative(r.childRate[..i]) && NonNegative(r.childIm[..i]);
      ProdNonNegative(r.childRate[..i]);
      ProdNonNegative(r.childIm[..i]);
      NonNegativeProduct3(births[j], Prod(r.childRate[..i]), Prod(r.childIm[..i]));
    }
  }

  /** The initial slice is non-negative when the 2010 counts of the working
      range are non-negative with a positive total. */
  lemma StartNonNegative(tb: Tables, S: int, J: int)
    requires Admissible(tb, S, J, 1)
    requires Sum(tb.pop2010[Initial.FirstAge..Initial.FirstAge + Initial.Ages]) > 0.0
    requires NonNegative(tb.pop2010[Initial.FirstAge..Initial.FirstAge + Initial.Ages])
    ensures NonNegativeMatrix(Start(tb, S, J).slice)
  {
    var counts := tb.pop2010[Initial.FirstAge..Initial.FirstAge + Initial.Ages];
    var shares := Initial.Shares(tb.pop2010);
    var total := Sum(counts);
    assert NonNegative(shares) by {
      forall k | 0 <= k < |shares|
        ensures shares[k] >= 0.0
      {
        assert shares[k] == counts[k] / total;
      }
    }
    var v := Initial.CohortShares(shares, S);
    var slice := Start(tb, S, J).slice;
    forall s, j | 0 <= s < S && 0 <= j < J
      ensures slice[s][j] >= 0.0
    {
      Initial.CohortShareIsRangeSum(shares, S, s);
      var lo, hi := Initial.Lo(S, s), Initial.Lo(S, s + 1);
      assert NonNegative(shares[lo..hi]);
      SumNonNegative(shares[lo..hi]);
      assert slice[s][j] == v[s] / (J as real);
    }
  }

  /** Population shares stay non-negative in every period when the 2010
      counts of the working range and all rates are non-negative. The rates
      are not always so: the survival clamp has no lower bound, and the
      immigration and fertility fits are arbitrary curves. */
  lemma ProjectionNonNegative(tb: Tables, S: int, J: int, T: int, t: int)
    requires Admissible(tb, S, J, T) && 0 <= t < T
    requires NonNegativeRates(RatesOf(tb, S, J))
    requires Sum(tb.pop2010[Initial.FirstAge..Initial.FirstAge + Initial.Ages]) > 0.0
    requires NonNegative(tb.pop2010[Initial.FirstAge..Initial.FirstAge + Initial.Ages])
    ensures NonNegativeMatrix(Projection(tb, S, J, T)[t])
  {
    var r, start := RatesOf(tb, S, J), Start(tb, S, J);
    StartNonNegative(tb, S, J);
    SeedNonNegative(start.slice, r, S, J);
    StateAtNonNegative(r, start, S, J, t);
  }

  // ---------------------------------------------------------------------
  // The imperative projection

  /** `a[t, s, :]` as a sequence. */
  function Row3(a: array3<real>, t: int, s: int): (row: seq<real>)
    requires 0 <= t < a.Length0 && 0 <= s < a.Length1
    reads a
    ensures |row| == a.Length2
    ensures forall j :: 0 <= j < a.Length2 ==> row[j] == a[t, s, j]
  {
    seq(a.Length2, j requires 0 <= j < a.Length2 reads a => a[t, s, j])
  }

  /** `a[t, :, :]` as a matrix. */
  function Slice3(a: array3<real>, t: int): (m: seq<seq<real>>)
    requires 0 <= t < a.Length0
    reads a
    ensures IsMatrix(m, a.Length1, a.Length2)
  {
    seq(a.Length1, s requires 0 <= s < a.Length1 reads a => Row3(a, t, s))
  }

  /** `c[i, :]` as a sequence. */
  function Row2(c: array2<real>, i: int): (row: seq<real>)
    requires 0 <= i < c.Length0
    reads c
    ensures |row| == c.Length1
    ensures forall j :: 0 <= j < c.Length1 ==> row[j] == c[i, j]
  {
    seq(c.Length1, j requires 0 <= j < c.Length1 reads c => c[i, j])
  }

  /** `c[:, :]` as a matrix. */
  function Rows2(c: array2<real>): (m: seq<seq<real>>)
    reads c
    ensures IsMatrix(m, c.Length0, c.Length1)
  {
    seq(c.Length0, i requires 0 <= i < c.Length0 reads c =>
      seq(c.Length1, j requires 0 <= j < c.Length1 reads c => c[i, j]))
  }

  /** `a[t, s, :] = row`. */
  method SetRow3(a: array3<real>, t: int, s: int, row: seq<real>)
    requires 0 <= t < a.Length0 && 0 <= s < a.Length1 && |row| == a.Length2
    modifies a
    ensures forall u, q, j :: 0 <= u < a.Length0 && 0 <= q < a.Length1 && 0 <= j < a.Length2 ==>
              a[u, q, j] == if u == t && q == s then row[j] else old(a[u, q, j])
  {
    for j := 0 to a.Length2
      invariant forall u, q, k :: 0 <= u < a.Length0 && 0 <= q < a.Length1 && 0 <= k < a.Length2 ==>
                  a[u, q, k] == if u == t && q == s && k < j then row[k] else old(a[u, q, k])
    {
      a[t, s, j] := row[j];
    }
  }

  /** `c[i, :] = row`. */
  method SetRow2(c: array2<real>, i: int, row: seq<real>)
    requires 0 <= i < c.Length0 && |row| == c.Length1
    modifies c
    ensures forall k, j :: 0 <= k < c.Length0 && 0 <= j < c.Length1 ==>
              c[k, j] == if k == i then row[j] else old(c[k, j])
  {
    for j := 0 to c.Length1
      invariant forall k, m :: 0 <= k < c.Length0 && 0 <= m < c.Length1 ==>
                  c[k, m] == if k == i && m < j then row[m] else old(c[k, m])
    {
      c[i, j] := row[j];
    }
  }

  /** Lines 244-247: fill the children from the births of slice 0. */
  method SeedChildren(children: array2<real>, big: array3<real>, r: Rates, S: int, J: int)
    requires big.Length0 >= 1 && big.Length1 == S && big.Length2 == J && J >= 0 && r.Shaped(S, J)
    requires children.Length0 == ChildAges && children.Length1 == J
    modifies children
    ensures Rows2(children) == Seed(Slice3(big, 0), r, S, J)
  {
    var births := Births(Slice3(big, 0), r.fert, J);
    ghost var seed := Seed(Slice3(big, 0), r, S, J);
    for i := 0 to ChildAges
      invariant forall k, j :: 0 <= k < i && 0 <= j < J ==> children[k, j] == seed[k][j]
    {
      SetRow2(children, i, seq(J, j requires 0 <= j < J => births[j] * Prod(r.childRate[..i]) * Prod(r.childIm[..i])));
    }
    Rows2FromElems(children, seed);
  }

  /** Lines 250-252: write the slice of period t from slice t-1 and the children. */
  method AdvanceSlice(big: array3<real>, children: array2<real>, t: int, r: Rates, ghost prev: State, S: int, J: int)
    requires 1 <= t < big.Length0 && big.Length1 == S && big.Length2 == J && S >= 2 && J >= 0
    requires children.Length0 == ChildAges && children.Length1 == J
    requires r.Shaped(S, J) && prev.Shaped(S, J)
    requires Slice3(big, t - 1) == prev.slice && Rows2(children) == prev.children
    modifies big
    ensures Slice3(big, t) == Step(r, prev, S, J).slice
    ensures forall u :: 0 <= u < big.Length0 && u != t ==> Slice3(big, u) == old(Slice3(big, u))
  {
    ghost var next := Step(r, prev, S, J).slice;
    ghost var before := seq(big.Length0, u requires 0 <= u < big.Length0 reads big => Slice3(big, u));
    forall u | 0 <= u < big.Length0 {
      Slice3Elems(big, u, before[u]);
    }
    assert before[t - 1] == prev.slice;
    Rows2Elems(children, prev.children);
    var oldest := Row2(children, ChildAges - 1);
    assert oldest == prev.children[ChildAges - 1];
    var youngest := Enter(oldest, r.childRate[ChildAges - 1], r.imm[0]);
    SetRow3(big, t, 0, youngest);
    for s := 0 to S - 1
      invariant forall u, q, j :: 0 <= u < big.Length0 && 0 <= q < S && 0 <= j < J ==>
                  big[u, q, j] == if u == t && q <= s then next[q][j] else before[u][q][j]
    {
      var cohort := Row3(big, t - 1, s);
      assert cohort == prev.slice[s];
      var row := Survive(cohort, r.surv[s], r.imm[s]);
      SetRow3(big, t, s + 1, row);
    }
    forall u | 0 <= u < big.Length0
      ensures Slice3(big, u) == if u == t then next else before[u]
    {
      Slice3FromElems(big, u, if u == t then next else before[u]);
    }
  }

  /** The entries of a slice that equals `m`. */
  lemma Slice3Elems(a: array3<real>, t: int, m: seq<seq<real>>)
    requires 0 <= t < a.Length0 && Slice3(a, t) == m
    ensures forall q, j :: 0 <= q < a.Length1 && 0 <= j < a.Length2 ==> a[t, q, j] == m[q][j]
  {
    forall q, j | 0 <= q < a.Length1 && 0 <= j < a.Length2
      ensures a[t, q, j] == m[q][j]
    {
      assert Slice3(a, t)[q] == Row3(a, t, q);
    }
  }

  /** A slice whose entries are those of `m` equals `m`. */
  lemma Slice3FromElems(a: array3<real>, t: int, m: seq<seq<real>>)
    requires 0 <= t < a.Length0 && IsMatrix(m, a.Length1, a.Length2)
    requires forall q, j :: 0 <= q < a.Length1 && 0 <= j < a.Length2 ==> a[t, q, j] == m[q][j]
    ensures Slice3(a, t) == m
  {
    forall q | 0 <= q < a.Length1
      ensures Slice3(a, t)[q] == m[q]
    {
      assert Slice3(a, t)[q] == Row3(a, t, q);
    }
  }

  /** The entries of a two-dimensional array that equals `m`. */
  lemma Rows2Elems(c: array2<real>, m: seq<seq<real>>)
    requires Rows2(c) == m
    ensures forall i, j :: 0 <= i < c.Length0 && 0 <= j < c.Length1 ==> c[i, j] == m[i][j]
  {
    forall i, j | 0 <= i < c.Length0 && 0 <= j < c.Length1
      ensures c[i, j] == m[i][j]
    {
      assert Rows2(c)[i][j] == c[i, j];
    }
  }

  /** A two-dimensional array whose entries are those of `m` equals `m`. */
  lemma Rows2FromElems(c: array2<real>, m: seq<seq<real>>)
    requires IsMatrix(m, c.Length0, c.Length1)
    requires forall i, j :: 0 <= i < c.Length0 && 0 <= j < c.Length1 ==> c[i, j] == m[i][j]
    ensures Rows2(c) == m
  {
    forall i | 0 <= i < c.Length0
      ensures Rows2(c)[i] == m[i]
    {
    }
  }

  /** Lines 253-255: age the children by one year, the top row first so that
      every row reads the value of the previous period, then store the births. */
  method AgeChildren(children: array2<real>, births: seq<real>, r: Rates, ghost prev: seq<seq<real>>, J: int)
    requires children.Length0 == ChildAges && children.Length1 == J && J >= 0 && |births| == J
    requires |r.childRate| == ChildAges && |r.childIm| == ChildAges - 1
    requires IsMatrix(prev, ChildAges, J) && Rows2(children) == prev
    modifies children
    ensures Rows2(children) == Age(r, prev, births, J)
  {
    ghost var next := Age(r, prev, births, J);
    Rows2Elems(children, prev);
    var i := ChildAges - 2;
    while i >= 0
      invariant -1 <= i <= ChildAges - 2
      invariant forall k, j :: 0 <= k < ChildAges && 0 <= j < J ==>
                  children[k, j] == if k > i + 1 then next[k][j] else prev[k][j]
    {
      var younger := Row2(children, i);
      assert younger == prev[i];
      var row := Grow(younger, r.childRate[i], r.childIm[i]);
      SetRow2(children, i + 1, row);
      i := i - 1;
    }
    SetRow2(children, 0, births);
    Rows2FromElems(children, next);
  }

  /** Lines 249-255: run the recurrence from period 1 to T-1. */
  method RunPath(big: array3<real>, children: array2<real>, r: Rates, ghost start: State, S: int, J: int)
    requires big.Length1 == S && big.Length2 == J && J >= 0 && (big.Length0 <= 1 || S >= 2)
    requires children.Length0 == ChildAges && children.Length1 == J
    requires r.Shaped(S, J) && start.Shaped(S, J)
    requires big.Length0 >= 1 ==> Slice3(big, 0) == start.slice
    requires Rows2(children) == start.children
    modifies big, children
    ensures forall t :: 0 <= t < big.Length0 ==> Slice3(big, t) == StateAt(r, start, S, J, t).slice
    ensures big.Length0 >= 1 ==> Rows2(children) == StateAt(r, start, S, J, big.Length0 - 1).children
  {
    if big.Length0 == 0 {
      return;
    }
    for t := 1 to big.Length0
      invariant forall u :: 0 <= u < t ==> Slice3(big, u) == StateAt(r, start, S, J, u).slice
      invariant Rows2(children) == StateAt(r, start, S, J, t - 1).children
    {
      ghost var prev := StateAt(r, start, S, J, t - 1);
      AdvanceSlice(big, children, t, r, prev, S, J);
      AgeChildren(children, Births(Slice3(big, t), r.fert, J), r, prev.children, J);
    }
  }

  /** Lines 218-237: the shares of the working range summed per cohort,
      broadcast over the ability types and divided by J. */
  method FirstOmega(tb: Tables, S: int, J: int) returns (init: seq<seq<real>>)
    requires Admissible(tb, S, J, 1)
    ensures init == Start(tb, S, J).slice
  {
    var shares := Initial.Shares(tb.pop2010);
    var newOmega := new real[S](_ => 0.0);
    for s := 0 to S
      invariant forall k :: 0 <= k < s ==> newOmega[k] == Initial.CohortShare(shares, S, k)
    {
      newOmega[s] := Initial.CohortShare(shares, S, s);
    }
    assert newOmega[..] == Initial.CohortShares(shares, S);
    init := DivideBy(Tile(newOmega[..], J), J as real);
  }

  /** Lines 238-241: the rate arrays of the three rate models. */
  method GetRates(tb: Tables, S: int, J: int) returns (r: Rates)
    requires Admissible(tb, S, J, 1)
    ensures r == RatesOf(tb, S, J)
  {
    var surv := Survival.GetSurvival(tb.survFit, S, J);
    var imm, childIm := Immigration.GetImmigration(tb, S, J);
    var fert, _ := Fertility.GetFert(tb.fertFit, S, J);
    r := Rates(surv, imm, fert, tb.childRate, childIm);
  }

  /** Lines 240-256 on given rates: tile the first slice over T periods, seed
      the children and run the recurrence. */
  method Project(init: seq<seq<real>>, r: Rates, S: int, J: int, T: int) returns (omega: seq<seq<seq<real>>>)
    requires J >= 0 && T >= 1 && (T == 1 || S >= 2) && IsMatrix(init, S, J) && r.Shaped(S, J)
    ensures omega == Path(r, State(init, Seed(init, r, S, J)), S, J, T)
  {
    var big := new real[T, S, J]((t, s, j) => if 0 <= s < |init| && 0 <= j < |init[s]| then init[s][j] else 0.0);
    var children := new real[ChildAges, J]((i, j) => 0.0);
    Slice3FromElems(big, 0, init);
    SeedChildren(children, big, r, S, J);
    ghost var start := State(init, Seed(init, r, S, J));
    RunPath(big, children, r, start, S, J);
    omega := seq(T, t requires 0 <= t < T reads big => Slice3(big, t));
    forall t | 0 <= t < T
      ensures omega[t] == Path(r, start, S, J, T)[t]
    {
      PathAt(r, start, S, J, T, t);
    }
  }

  /** `get_omega(S, J, T)`. */
  method GetOmega(tb: Tables, S: int, J: int, T: int) returns (omega: seq<seq<seq<real>>>)
    requires Admissible(tb, S, J, T)
    ensures omega == Projection(tb, S, J, T)
  {
    var init := FirstOmega(tb, S, J);
    var r := GetRates(tb, S, J);
    omega := Project(init, r, S, J, T);
  }
}

/** Re-binning helpers shared by the rate models: the integer bucket width,
    products, sums and means of buckets, and the matrix shapes that NumPy's
    `tile`, `zeros` and `.sum(0)` produce.
    Line numbers in the comments of this module refer to
    `Python/3_demographics/demographics.py`. */
module Bins {

  /** Each fitted curve of the rate models is evaluated on
      `np.linspace(15, 75, 60)`: 60 single-year points. */
  const Points := 60

  /** Python 2 integer division `60/S`: how many single-year points one cohort spans. */
  function Width(S: int): (w: nat)
    requires S >= 1
    ensures S <= Points ==> w >= 1
    ensures S > Points ==> w == 0
  {
    60 / S
  }

  /** `60/S` is the floor of 60 divided by S. */
  lemma WidthIsFloor(S: int)
    requires S >= 1
    ensures S * Width(S) <= 60 < S * (Width(S) + 1)
  {
  }

  /** The last single-year index a cohort bucket reaches stays inside the 60-point grid,
      and, for every cohort but the last, inside the first 59 points. */
  lemma BucketEnd(S: int, s: int)
    requires S >= 1 && 0 <= s < S
    ensures (s + 1) * Width(S) <= 60
    ensures s < S - 1 ==> (s + 1) * Width(S) <= 59
  {
    var w := Width(S);
    WidthIsFloor(S);
    MulMono(s + 1, S, w);
    if s < S - 1 {
      MulMono(s + 1, S - 1, w);
      assert (S - 1) * w == S * w - w;
      if w == 0 { assert (s + 1) * w == 0; }
    }
  }

  lemma MulMono(a: int, b: int, c: nat)
    requires a <= b
    ensures a * c <= b * c
  {
  }

  /** The slice `v[s*(60/S):(s+1)*(60/S)]` holding the single-year points of
      cohort s, cut short at the end of v as NumPy slicing is. */
  function Bucket(v: seq<real>, S: int, s: int): (b: seq<real>)
    requires S >= 1 && 0 <= s
    ensures |b| <= Width(S)
    ensures forall k :: 0 <= k < |b| ==> s * Width(S) + k < |v| && b[k] == v[s * Width(S) + k]
  {
    var lo := s * Width(S);
    var hi := lo + Width(S);
    if hi <= |v| then v[lo..hi] else if lo <= |v| then v[lo..] else []
  }

  /** A bucket that ends inside v is the full Width(S) points from s*(60/S) on. */
  lemma BucketFull(v: seq<real>, S: int, s: int)
    requires S >= 1 && 0 <= s && (s + 1) * Width(S) <= |v|
    ensures Bucket(v, S, s) == v[s * Width(S)..(s + 1) * Width(S)]
    ensures |Bucket(v, S, s)| == Width(S)
  {
    assert (s + 1) * Width(S) == s * Width(S) + Width(S);
  }

  /** `np.product`: the product of all values, 1.0 for an empty slice. */
  function Prod(v: seq<real>): real
  {
    if |v| == 0 then 1.0 else v[0] * Prod(v[1..])
  }

  /** `sum` of all values, 0.0 for an empty slice. */
  function Sum(v: seq<real>): real
  {
    if |v| == 0 then 0.0 else v[0] + Sum(v[1..])
  }

  /** `np.mean` of a non-empty slice. */
  function Mean(v: seq<real>): real
    requires |v| > 0
  {
    Sum(v) / (|v| as real)
  }

  predicate AllIn(v: seq<real>, lo: real, hi: real)
  {
    forall i :: 0 <= i < |v| ==> lo <= v[i] <= hi
  }

  predicate NonNegative(v: seq<real>)
  {
    forall i :: 0 <= i < |v| ==> 0.0 <= v[i]
  }

  /** A product of probabilities is a probability. */
  lemma {:induction false} ProdUnit(v: seq<real>)
    requires AllIn(v, 0.0, 1.0)
    ensures 0.0 <= Prod(v) <= 1.0
  {
    if |v| > 0 {
      assert AllIn(v[1..], 0.0, 1.0);
      ProdUnit(v[1..]);
      var p := Prod(v[1..]);
      assert v[0] * p <= 1.0 * p by { MulMonoReal(v[0], 1.0, p); }
      assert 0.0 <= v[0] * p by { MulMonoReal(0.0, v[0], p); }
    }
  }

  lemma MulMonoReal(a: real, b: real, c: real)
    requires a <= b && 0.0 <= c
    ensures a * c <= b * c
  {
  }

  /** A product of non-negative values is non-negative. */
  lemma {:induction false} ProdNonNegative(v: seq<real>)
    requires NonNegative(v)
    ensures Prod(v) >= 0.0
  {
    if |v| > 0 {
      assert NonNegative(v[1..]);
      ProdNonNegative(v[1..]);
      MulMonoReal(0.0, v[0], Prod(v[1..]));
    }
  }

  /** A product of three non-negative values is non-negative. */
  lemma NonNegativeProduct3(a: real, b: real, c: real)
    requires a >= 0.0 && b >= 0.0 && c >= 0.0
    ensures a * b * c >= 0.0
  {
    MulMonoReal(0.0, a, b);
    MulMonoReal(0.0, a * b, c);
  }

  lemma {:induction false} SumNonNegative(v: seq<real>)
    requires NonNegative(v)
    ensures Sum(v) >= 0.0
  {
    if |v| > 0 {
      assert NonNegative(v[1..]);
      SumNonNegative(v[1..]);
    }
  }

  lemma MeanNonNegative(v: seq<real>)
    requires |v| > 0 && NonNegative(v)
    ensures Mean(v) >= 0.0
  {
    SumNonNegative(v);
  }

  /** A sum splits over concatenation. */
  lemma {:induction false} SumAppend(a: seq<real>, b: seq<real>)
    ensures Sum(a + b) == Sum(a) + Sum(b)
  {
    if |a| == 0 {
      assert a + b == b;
    } else {
      assert (a + b)[1..] == a[1..] + b;
      SumAppend(a[1..], b);
    }
  }

  /** A sum of a range splits at any point inside it. */
  lemma SumSplit(v: seq<real>, lo: int, mid: int, hi: int)
    requires 0 <= lo <= mid <= hi <= |v|
    ensures Sum(v[lo..hi]) == Sum(v[lo..mid]) + Sum(v[mid..hi])
  {
    assert v[lo..hi] == v[lo..mid] + v[mid..hi];
    SumAppend(v[lo..mid], v[mid..hi]);
  }

  /** Dividing every value by d divides the sum by d. */
  lemma {:induction false} SumDivided(v: seq<real>, d: real)
    requires d != 0.0
    ensures Sum(seq(|v|, i requires 0 <= i < |v| => v[i] / d)) == Sum(v) / d
  {
    var q := seq(|v|, i requires 0 <= i < |v| => v[i] / d);
    if |v| > 0 {
      assert q[1..] == seq(|v[1..]|, i requires 0 <= i < |v[1..]| => v[1..][i] / d);
      SumDivided(v[1..], d);
    }
  }

  /** n copies of x sum to n times x. */
  lemma {:induction false} SumConstant(n: nat, x: real)
    ensures Sum(seq(n, _ => x)) == (n as real) * x
  {
    if n > 0 {
      assert seq(n, _ => x)[1..] == seq(n - 1, _ => x);
      SumConstant(n - 1, x);
    }
  }

  predicate IsMatrix(m: seq<seq<real>>, rows: int, cols: int)
  {
    |m| == rows && forall r :: 0 <= r < |m| ==> |m[r]| == cols
  }

  /** Ability types only split a cohort: every column of a row holds the same value. */
  predicate UniformColumns(m: seq<seq<real>>)
  {
    forall r, j :: 0 <= r < |m| && 0 <= j < |m[r]| ==> m[r][j] == m[r][0]
  }

  /** `np.tile(v.reshape(n, 1), (1, J))`: v broadcast over J identical columns. */
  function Tile(v: seq<real>, J: nat): (m: seq<seq<real>>)
    ensures IsMatrix(m, |v|, J) && UniformColumns(m)
    ensures forall r, j :: 0 <= r < |v| && 0 <= j < J ==> m[r][j] == v[r]
  {
    seq(|v|, r requires 0 <= r < |v| => seq(J, _ => v[r]))
  }

  /** `np.zeros((rows, cols))`. */
  function Zeros(rows: nat, cols: nat): (m: seq<seq<real>>)
    ensures IsMatrix(m, rows, cols)
  {
    seq(rows, _ => seq(cols, _ => 0.0))
  }

  /** `m[:, j]`. */
  function Column(m: seq<seq<real>>, j: nat): (c: seq<real>)
    requires forall r :: 0 <= r < |m| ==> j < |m[r]|
    ensures |c| == |m|
  {
    seq(|m|, r requires 0 <= r < |m| => m[r][j])
  }

  /** `m / d`, elementwise. */
  function DivideBy(m: seq<seq<real>>, d: real): (q: seq<seq<real>>)
    requires d != 0.0
    ensures |q| == |m| && forall r :: 0 <= r < |m| ==> |q[r]| == |m[r]|
  {
    seq(|m|, r requires 0 <= r < |m| => seq(|m[r]|, j requires 0 <= j < |m[r]| => m[r][j] / d))
  }

  /** The sum of every entry of a matrix. */
  function Total(m: seq<seq<real>>): real
  {
    Sum(seq(|m|, r requires 0 <= r < |m| => Sum(m[r])))
  }

  /** Column j of `(m * f).sum(0)`: the sum over rows of m[r][j] * f[r][j]. */
  function WeightedColumnSum(m: seq<seq<real>>, f: seq<seq<real>>, j: nat): real
    requires |f| == |m|
    requires forall r :: 0 <= r < |m| ==> j < |m[r]| && j < |f[r]|
  {
    if |m| == 0 then 0.0 else m[0][j] * f[0][j] + WeightedColumnSum(m[1..], f[1..], j)
  }

  /** `(m * f).sum(0)` for an n-by-J pair of matrices. */
  function WeightedColumnSums(m: seq<seq<real>>, f: seq<seq<real>>, J: nat): (b: seq<real>)
    requires |f| == |m| && IsMatrix(m, |m|, J) && IsMatrix(f, |f|, J)
    ensures |b| == J
  {
    seq(J, j requires 0 <= j < J => WeightedColumnSum(m, f, j))
  }
}

# Demographic rates and population shares (`demographics.py`)

This project models the demographic part of an overlapping-generations
model. The population of working ages 16..75 is grouped into S age cohorts,
and each cohort is split evenly over J ability types. From this grouping
the code builds:

- **survival rates** (`get_survival`): a fitted one-year survival curve,
  clamped at 1.0 and compounded within each cohort's bucket. The terminal
  cohort always dies.
- **immigration rates** (`get_immigration`). The 2010 population is aged one
  year and thinned by survival, which predicts the 2011 population. The
  ratio of observed to predicted counts is fitted, then compounded into S-1
  cohorts. The first 14 fitted values are kept for the children.
- **fertility rates** (`get_fert`): a fitted fertility curve, zeroed outside
  ages 10..50 and wherever it is negative. It is averaged per cohort and
  halved because it is shared by two sexes. A zero 15-by-J children matrix
  comes with it.
- **the population distribution `omega`** over T periods (`get_omega`).
  - Slice 0 holds the 2010 shares of the working ages, summed per cohort and
    divided by J.
  - The children aged 0..14 are seeded from the births of slice 0.
  - Each later period ages every cohort and every child by one step. The
    oldest children enter the first cohort, and the newborns are the births
    of the new slice.

The fitted curves, the population columns and the child survival rates are
inputs (`Inputs.Tables`). All arithmetic is on exact `real`s.

- `Bins` (`bins.dfy`): the integer bucket width `60/S`, bucket slices,
  products, sums, means, and the tiled matrix shapes.
- `Survival`, `Immigration`, `Fertility`: the three rate models. Each is a
  method that runs the source's loops on arrays and is proved equal to a
  specification function.
- `Initial`: the cohort shares of slice 0.
- `Omega`: the projection.
  - `Step` is one period of the recurrence, `StateAt` iterates it, and
    `Projection` is the specification of `get_omega`.
  - `GetOmega` fills an `array3` and an `array2` the way the source fills
    `omega_big` and `children`. It is proved equal to `Projection`.

Normalisation follows the code. The 2010 counts are divided by the total of
the working range `data[16:76]`, the only rows left in `data` after the
restriction at line 64. They are not divided by the total of the whole
table.

## Model

| member | source | states |
|---|---|---|
| Bins.Width | Python/3_demographics/demographics.py:113 | Python 2 integer division `60/S`: at least 1 for at most 60 cohorts, and 0 beyond. |
| Bins.Bucket | Python/3_demographics/demographics.py:112-113 | The slice `v[s*(60/S):(s+1)*(60/S)]`, cut short at the end of v as NumPy does: at most 60/S values, value k being v[s*(60/S)+k]. |
| Bins.WidthIsFloor | Python/3_demographics/demographics.py:111-113 | The Python 2 width `60/S` is the floor of 60/S: S buckets of that width fit in the 60 points, and one more point per bucket would not. |
| Bins.BucketEnd | Python/3_demographics/demographics.py:111-113 | Every cohort's bucket ends within the 60-point grid. Every cohort but the last ends within the first 59 points. |
| Bins.BucketFull | Python/3_demographics/demographics.py:112-113 | A bucket that ends inside the vector is exactly the slice `s*(60/S) .. (s+1)*(60/S)-1` and has 60/S points. |
| Bins.ProdUnit | Python/3_demographics/demographics.py:112-113 | The product of values in [0,1] is in [0,1]. |
| Bins.Tile | Python/3_demographics/demographics.py:116 | The tiled matrix has one row per entry of v and J columns, all columns identical, and entry [r][j] is v[r]. |
| Survival.ClampAtOne | Python/3_demographics/demographics.py:105-108 | Each value above 1.0 becomes exactly 1.0. Every other value, a negative one included, is unchanged. No value exceeds 1.0. |
| Survival.Cohorts | Python/3_demographics/demographics.py:109-115 | `surv_rate_condensed` for S cohorts: the 60 fitted values clamped at 1.0, then compounded per bucket (S entries). |
| Survival.Compound | Python/3_demographics/demographics.py:109-115 | Cohort s is the product of the bucket `s*(60/S) .. (s+1)*(60/S)-1` of the clamped values, except the last cohort, which is 0 (S entries). |
| Survival.GetSurvival | Python/3_demographics/demographics.py:92-117 | The in-place clamp loop and the bucket loop yield the tiled cohort rates: an S-by-J matrix with identical columns and an all-zero last row. |
| Survival.CohortOffsets | Python/3_demographics/demographics.py:111-113 | Every cohort but the last is the product of the clamped values at indices s*(60/S) .. (s+1)*(60/S)-1, which lie inside the 60 points. |
| Survival.TailUnused | Python/3_demographics/demographics.py:111-113 | Two fitted curves that agree on the first S*(60/S) points give the same cohorts, so the points after them are never used. |
| Survival.CohortAgrees | Python/3_demographics/demographics.py:111-113 | One cohort below the last takes the same value for two fitted curves that agree on the first S*(60/S) points. |
| Survival.CohortsAreProbabilities | Python/3_demographics/demographics.py:106-115 | If the fitted values are non-negative, every cohort rate lies in [0,1]. |
| Survival.SingleYearCohorts | Python/3_demographics/demographics.py:109-115 | For S = 60, cohort s is the clamped single-year value (at most 1.0) and the last cohort is 0. |
| Survival.CohortCanExceedOne | Python/3_demographics/demographics.py:106-113 | Without a lower clamp a cohort can exceed 1: two fitted values of -2.0 in a 2-year bucket (S = 30) give 4.0. |
| Immigration.SurvivalByAge | Python/3_demographics/demographics.py:139-140 | `surv_array`: the 15 child survival rates followed by the 60 single-year cohort rates of `get_survival(60, 1)` (75 entries). |
| Immigration.Survivors | Python/3_demographics/demographics.py:142 | `pop_2010[1:76] * surv_array`: entry i is the 2010 count at age i+1 times survival rate i (75 entries). |
| Immigration.Predicted | Python/3_demographics/demographics.py:142 | The predicted 2011 counts: the survivors of the 2010 table under `surv_array` (75 entries). |
| Immigration.TerminalPredictionIsZero | Python/3_demographics/demographics.py:139-149 | The 75th predicted survivor count is 0, because the terminal single-year survival rate is 0. This is the entry that line 149 drops. |
| Immigration.PercentChange | Python/3_demographics/demographics.py:147-149 | One plus the percent change, with the last entry dropped, has 74 entries, and entry i equals observed/predicted. |
| Immigration.Factor | Python/3_demographics/demographics.py:136-149 | Entry i of the vector that is fitted is pop2011[i+2] / (pop2010[i+1] * survAll[i]). survAll is the 15 child rates followed by the 60 single-year cohort rates, and the prediction is pop2010[i+1] * survAll[i]. |
| Immigration.Fitted | Python/3_demographics/demographics.py:151-152 | The fitted immigration factors: the given fit (polyfit then polyval on `np.linspace(1, 75, 74)`) applied to the 74 factors. |
| Immigration.Cohorts | Python/3_demographics/demographics.py:153-158 | `imm_rate_condensed`: S-1 entries, entry s the product of bucket s of `im_array[15:]`. |
| Immigration.CohortOffsets | Python/3_demographics/demographics.py:153-158 | Immigration cohort s is the product of the fitted values at indices 15+s*(60/S) .. 15+(s+1)*(60/S)-1, which lie within the 74 values. |
| Immigration.GetImmigration | Python/3_demographics/demographics.py:126-161 | The loop yields an (S-1)-by-J matrix with identical columns whose row s is cohort s. The child vector is exactly the first 14 fitted values. |
| Fertility.GridAge | Python/3_demographics/demographics.py:183-187 | `np.linspace(15, 75, 60)[i]`, exactly 15 + 60i/59: point 0 is 15 and point 59 is 75. |
| Fertility.GridAges | Python/3_demographics/demographics.py:183-187 | The grid 15 + 60i/59 runs from 15 to 75. Its points above age 50 are exactly those with index 35 and up. |
| Fertility.Clamp | Python/3_demographics/demographics.py:186-190 | After the clamp every rate is non-negative. A rate is 0 wherever its grid age is above 50 or below 10 and wherever the fitted value is negative, and is the fitted value wherever that age is inside the window and the value is non-negative. |
| Fertility.ClampWindow | Python/3_demographics/demographics.py:186-190 | On the grid the window is the first 35 points: from point 35 on the rate is 0, and before it the rate is the fitted value with negatives raised to 0. |
| Fertility.BucketNonEmpty | Python/3_demographics/demographics.py:193-195 | For 1 <= S <= 60 no bucket is empty, so each mean is defined. |
| Fertility.CohortsNonNegative | Python/3_demographics/demographics.py:191-198 | Every cohort fertility rate (half a bucket mean) is non-negative. |
| Fertility.CohortNonNegative | Python/3_demographics/demographics.py:191-198 | The fertility rate of one cohort (half its bucket mean) is non-negative. |
| Fertility.CohortsPastWindowZero | Python/3_demographics/demographics.py:186-195 | A cohort whose first grid point is past age 50 has fertility exactly 0. |
| Fertility.Cohorts | Python/3_demographics/demographics.py:191-198 | The halved bucket means of the clamped fertility curve (S entries). |
| Fertility.Means | Python/3_demographics/demographics.py:191-195 | `fert_rate_condensed`: entry s is the mean of bucket s of the clamped rates (S entries). |
| Fertility.HalfMeans | Python/3_demographics/demographics.py:191-198 | Entry s is half the mean of bucket s (S entries). |
| Fertility.HalveTile | Python/3_demographics/demographics.py:196-198 | Halving the tiled matrix is tiling the halved cohort vector. |
| Fertility.GetFert | Python/3_demographics/demographics.py:171-200 | The clamp loop and the mean loop yield the tiled halved cohort means: an S-by-J matrix with identical columns and no negative entry. The second result is the 15-by-J zero matrix. |
| Fertility.ClampRates | Python/3_demographics/demographics.py:186-190 | The in-place loop over the 60 rates yields exactly the clamped curve `Fertility.Clamp`. |
| Fertility.CondenseMeans | Python/3_demographics/demographics.py:191-195 | The loop over the cohorts yields exactly the bucket means `Fertility.Means`. |
| Initial.Shares | Python/3_demographics/demographics.py:220-228 | The normalised 2010 column of the working range has 60 entries summing to 1. |
| Initial.Boundary | Python/3_demographics/demographics.py:218 | Entry k of `np.linspace(16, 76, S+1)`, 16 + 60k/S exactly; the first boundary is 16 and boundary S is 76. |
| Initial.InCohort | Python/3_demographics/demographics.py:233-234 | The mask of cohort s: `age_groups[s] <= age < age_groups[s+1]`. |
| Initial.CohortShareFrom | Python/3_demographics/demographics.py:231-234 | The sum of the masked shares of cohort s from working-range index k to the end. |
| Initial.CohortShare | Python/3_demographics/demographics.py:231-234 | `new_omega[s]`: the sum of the shares of the working ages inside cohort s's mask. |
| Initial.CohortShares | Python/3_demographics/demographics.py:230-234 | `new_omega` after the loop: one masked share sum per cohort (S entries). |
| Initial.InitialSlice | Python/3_demographics/demographics.py:235-237 | The cohort shares tiled over J columns and divided by J (an S-by-J matrix). |
| Initial.BoundaryAtMost | Python/3_demographics/demographics.py:218 | Boundary 16 + 60s/S is at most age 16+k exactly when the ceiling of 60s/S is at most k. |
| Initial.InCohortRange | Python/3_demographics/demographics.py:232-234 | The mask `age_groups[s] <= age < age_groups[s+1]` selects exactly the working-range indices Lo(S,s) .. Lo(S,s+1)-1. |
| Initial.LoBounds | Python/3_demographics/demographics.py:218 | The cohort ranges start at index 0, end at index 60, and are ordered. |
| Initial.CohortShareIsRangeSum | Python/3_demographics/demographics.py:231-234 | `new_omega[s]` is the sum of the shares of cohort s's contiguous age range. |
| Initial.CohortSharesTotal | Python/3_demographics/demographics.py:231-234 | Every working age lies in exactly one cohort, so the cohort shares sum to the total of the shares. |
| Initial.InitialSliceTotal | Python/3_demographics/demographics.py:235-237 | With shares summing to 1, the tiled slice divided by J sums to 1 over all S*J entries. |
| Omega.RatesOf | Python/3_demographics/demographics.py:238-241 | Survival and fertility are S-by-J, immigration is (S-1)-by-J, and there are 15 child survival rates and 14 child immigration factors. |
| Omega.Births | Python/3_demographics/demographics.py:255 | `(omega * fert_rate).sum(0)`: for each ability type, the sum over cohorts of share times fertility (J entries). |
| Omega.Seed | Python/3_demographics/demographics.py:244-247 | Child i is births(slice) times the product of the first i child survival rates and the first i child immigration factors (15-by-J). |
| Omega.Advance | Python/3_demographics/demographics.py:250-252 | The new slice: row 0 is the oldest children entering, row s+1 is old row s survived and with immigration (S-by-J). |
| Omega.Enter | Python/3_demographics/demographics.py:250 | `children[-1, :] * children_rate[-1] * imm_array[0]`, entry by entry (J entries). |
| Omega.Survive | Python/3_demographics/demographics.py:251-252 | One cohort row times its survival row and its immigration row, entry by entry. |
| Omega.Age | Python/3_demographics/demographics.py:253-255 | The new children: row 0 is the births, row i+1 is old row i grown by child survival and immigration (15-by-J). |
| Omega.Grow | Python/3_demographics/demographics.py:253-254 | One children row times its survival rate and its immigration factor, entry by entry. |
| Omega.Step | Python/3_demographics/demographics.py:249-255 | One pass of the time loop: the new slice, then the children aged with the births of the new slice. |
| Omega.StateAt | Python/3_demographics/demographics.py:249-255 | The slice and children after t passes of the time loop from the start state. |
| Omega.Path | Python/3_demographics/demographics.py:249-256 | The slices of periods 0 .. T-1 (T entries). |
| Omega.Projection | Python/3_demographics/demographics.py:209-256 | `omega_big`: the path from the initial slice and the seeded children under the rates of the three rate models (T entries). |
| Omega.Start | Python/3_demographics/demographics.py:218-247 | The state of period 0: the initial slice of the normalised 2010 shares and the children seeded from its births, in the shapes S-by-J and 15-by-J. |
| Omega.FirstSlice | Python/3_demographics/demographics.py:218-240 | Slice 0 of omega does not depend on T. It is the initial slice and sums to 1 over S*J. |
| Omega.FirstSliceEntry | Python/3_demographics/demographics.py:229-237 | Entry [s][j] of slice 0 is the sum of the normalised shares of cohort s's ages, divided by J. |
| Omega.PathPrefix | Python/3_demographics/demographics.py:240-255 | A longer horizon only appends periods: the first T slices do not depend on how many follow. |
| Omega.SliceRecurrence | Python/3_demographics/demographics.py:250-252 | In one step, the first cohort is oldChildren[14] * children_rate[14] * imm[0], and cohort s+1 is old cohort s * surv[s] * imm[s] for s < S-1. |
| Omega.ChildrenRecurrence | Python/3_demographics/demographics.py:253-255 | In one step, child i+1 is oldChild[i] * children_rate[i] * children_im[i], and child 0 is the births of the new slice. |
| Omega.TerminalCohortLeaves | Python/3_demographics/demographics.py:251-252 | A step does not depend on the oldest cohort of the previous slice: that cohort dies. |
| Omega.StateAtStep | Python/3_demographics/demographics.py:249-255 | Unfolding lemma for StateAt: the state of period t is one step from the state of period t-1. |
| Omega.PathAt | Python/3_demographics/demographics.py:249-256 | Unfolding lemma for Path: slice t of omega is the slice of the state after t periods. |
| Omega.PathStep | Python/3_demographics/demographics.py:249-255 | Slice t of omega is one step of the recurrence from the state whose slice is slice t-1. |
| Omega.UniformBirths | Python/3_demographics/demographics.py:255 | Births are the same for every ability type when the slice and the fertility rates have identical columns. |
| Omega.StepKeepsUniform | Python/3_demographics/demographics.py:249-255 | A step keeps identical columns in the slice and in the children. |
| Omega.StateAtUniform | Python/3_demographics/demographics.py:249-255 | Every state reached from a start with identical columns has identical columns. |
| Omega.SeedUniform | Python/3_demographics/demographics.py:244-247 | The seeded children have identical columns. |
| Omega.InitialSliceUniform | Python/3_demographics/demographics.py:235-237 | Slice 0 splits each cohort evenly over the J ability types. |
| Omega.ProjectionUniform | Python/3_demographics/demographics.py:235-256 | Every slice of omega gives all ability types of a cohort the same share. |
| Omega.StepKeepsNonNegative | Python/3_demographics/demographics.py:249-255 | Under non-negative rates a step keeps the slice and the children non-negative. |
| Omega.StateAtNonNegative | Python/3_demographics/demographics.py:249-255 | Under non-negative rates every state reached from a non-negative start is non-negative. |
| Omega.SeedNonNegative | Python/3_demographics/demographics.py:244-247 | The seeded children are non-negative when slice 0 and the rates are. |
| Omega.StartNonNegative | Python/3_demographics/demographics.py:220-237 | Slice 0 is non-negative when the working-range counts are non-negative with a positive total. |
| Omega.ProjectionNonNegative | Python/3_demographics/demographics.py:218-256 | With non-negative counts and rates, every slice of omega is non-negative. |
| Omega.SeedChildren | Python/3_demographics/demographics.py:244-247 | The loop fills the children array with births(slice 0) times the products of the first i child survival rates and child immigration factors. |
| Omega.AdvanceSlice | Python/3_demographics/demographics.py:250-252 | Writing `omega_big[t]` from `omega_big[t-1]` and the children gives the slice of one step, and leaves every other period unchanged. |
| Omega.AgeChildren | Python/3_demographics/demographics.py:253-255 | The shift from the top row down, then storing the births, gives the children of one step from the previous period's values. |
| Omega.RunPath | Python/3_demographics/demographics.py:249-255 | After the time loop, period t of the array is the slice of the state after t periods, for every t, and the children array holds the children of the last period. |
| Omega.FirstOmega | Python/3_demographics/demographics.py:218-237 | The `new_omega` loop, the tiling and the division by J give slice 0 of the start state. |
| Omega.GetRates | Python/3_demographics/demographics.py:238-241 | The three rate methods give exactly the rates of the three rate models. |
| Omega.Project | Python/3_demographics/demographics.py:240-256 | Tiling slice 0 over T periods, seeding the children and running the loop gives the path of the recurrence from that start. |
| Omega.GetOmega | Python/3_demographics/demographics.py:209-256 | `get_omega(S, J, T)` returns exactly the projection: T slices, slice 0 the initial distribution, each later slice one step of the recurrence. |

## Left out

- Reading the CSV files, stripping commas and pandas indexing (lines 52-64, 67-76) are I/O. The population columns and `children_rate` are inputs.
- The averaging of male and female mortality (lines 69-74) happens at load time. It is reflected in `children_rate` and in the survival fit `survFit`, both inputs.
- `poly.polyfit` and `poly.polyval` are least-squares fits in a foreign library. The fitted survival and fertility curves are 60 given values each. The immigration fit is a given function of the 74 immigration factors, so the alignment code still feeds the fit.
- Floating point is not modelled: rounding, `dtype='f'` (float32), NaN and infinities. Grids are exact: 15 + 60i/59 and 16 + 60k/S.
- Division by zero in the percent change is excluded by a precondition: the 74 kept predicted counts must be nonzero (`Immigration.PredictionsNonZero`). The same holds for a zero working-range total.
- More than 60 cohorts are excluded (`Omega.Admissible`). Then `60/S` is 0, every fertility bucket is empty and its mean is NaN.
- A single cohort is allowed only with T = 1 (`Omega.Admissible`). With T > 1, `imm_array[0]` does not exist and the code fails.
- The in-place division of the module-level `data` (lines 225-228) changes state between calls. The model normalises a copy, so repeated calls are not captured. The normalisation of the 2011-2013 columns does not affect the result and is left out.
- Omega.ProjectionNonNegative: non-negativity of the rates is assumed. The code does not guarantee it: survival has no lower clamp, and the immigration fit can go negative.
- Survival.CohortsAreProbabilities: rates lie in [0,1] only for non-negative fitted values. Survival.CohortCanExceedOne shows that, as written, a cohort rate can exceed 1 for S < 60. The model keeps the code's behaviour and adds no lower clamp.

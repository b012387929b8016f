# Least-squares fitting in the UTSML API routes

This project models the deterministic numeric core of two Next.js API routes
of UTSML, a small machine-learning demo:

- `src/app/api/linear-regression/route.ts`, which holds:
  - `linearRegression`, the least-squares line with its R²;
  - `polynomialRegression`, the least-squares parabola solved by Cramer's rule;
  - the `POST` handler that dispatches on the request's `type`.
- `src/app/api/ml/route.ts`, which holds the fallbacks used when the AI
  service's answer does not parse as JSON:
  - `manualLinearRegression`;
  - the label bookkeeping and accuracy of `manualClassification`;
  - the round-robin partition of `manualClustering`.

All arithmetic on the fitting paths is `+ − × ÷`, so numbers are modelled exactly as
`real`. A JavaScript number is `Values.Num`: either `Finite(v)` or
`NonFinite`. The routes divide without checking the divisor. A division by zero
gives NaN or ±Infinity, which the model collapses into `NonFinite`. On every
path modelled here, a non-finite value stays non-finite until the result.

The modules are:

- `Values`: `Option` and `Num`.
- `Sums`: points, the power sums as left folds, and the squared-error sums with their algebra.
- `Linear`: `linearRegression` and the least-squares theory behind it.
- `Quadratic`: `polynomialRegression` with Cramer's rule and the three-point results.
- `RegressionRoute`: the `POST` handler.
- `MlRoute`: the three fallbacks.

Two things are imperative in the source and are imperative in the model:

- the accumulation loops of `polynomialRegression` and `manualLinearRegression`;
- the in-place pushes of `manualClustering`.

These are methods with loop invariants, proved equal to specification functions.
`linearRegression`, `POST` and `manualClassification` are folds, maps and branches,
and are modelled as functions.

The code itself sets the behaviour at the edges. In the exact arithmetic of
this model:

- `linearRegression` refuses fewer than two points and checks nothing else.
  When all x values are equal, it returns an object whose slope, intercept and
  R² are not numbers. `POST` then answers 200 with that object.
- When every y value is equal, ssTot is zero and R² is not a number (as it
  already is when the slope is not a number).
- `polynomialRegression` refuses fewer than three points or a determinant that is exactly zero.

In double-precision arithmetic these zero tests can come out differently. For
example, a rounded `n·Σx² − (Σx)²` or ssTot can be slightly non-zero for equal
values. "## Left out" says more.

## Model

| member | source | states |
|---|---|---|
| Values.Div | src/app/api/linear-regression/route.ts:10-11 | `a / b` is a number exactly when `b ≠ 0`, and then it is the value `q` with `q·b = a` |
| Values.OneMinus | src/app/api/linear-regression/route.ts:17 | `1 − q` is a number exactly when `q` is, and the two add up to 1 |
| Sums.SpreadXZeroIff | src/app/api/linear-regression/route.ts:10 | the slope's divisor `n·Σx² − (Σx)²` is never negative, and it is zero exactly when all x values are equal |
| Sums.SSEZeroIff | src/app/api/linear-regression/route.ts:16 | the squared error of a line is never negative, and it is zero exactly when every point lies on the line |
| Sums.SSEExpand | src/app/api/linear-regression/route.ts:6-9 | the squared error of any line is a fixed polynomial in the line's coefficients and the power sums `n, Σx, Σy, Σxy, Σx², Σy²` |
| Linear.LinearRegression | src/app/api/linear-regression/route.ts:3-19 | no fit for fewer than two points; otherwise exactly `FitLine`'s slope, intercept and R², with no other check |
| Linear.FitSlope | src/app/api/linear-regression/route.ts:10 | the slope is a number exactly when its divisor `n·Σx² − (Σx)²` is not zero |
| Linear.FitIntercept | src/app/api/linear-regression/route.ts:11 | the intercept is a number exactly when the slope is and `n ≠ 0`, and then `slope·Σx + intercept·n = Σy` |
| Linear.TotalSS | src/app/api/linear-regression/route.ts:14-15 | ssTot is a number exactly when there are no points or `meanY` is a number, and it is never negative |
| Linear.ResidualSS | src/app/api/linear-regression/route.ts:16 | ssRes is a number exactly when there are no points or both slope and intercept are numbers, and it is never negative |
| Linear.RSquared | src/app/api/linear-regression/route.ts:17 | `1 − ssRes/ssTot` is a number exactly when both sums are and ssTot ≠ 0, and it is 1 exactly when ssRes is 0 |
| Linear.FitLine | src/app/api/linear-regression/route.ts:6-17 | the fit's slope is a number exactly when the data's x spread is not zero; a numeric intercept needs a numeric slope, and a numeric R² a numeric intercept (or no points) |
| Linear.SlopeFiniteIff | src/app/api/linear-regression/route.ts:10-11 | the slope is a number exactly when the x values are not all equal; the intercept is a number exactly when the slope is |
| Linear.SumsNormalEquations | src/app/api/linear-regression/route.ts:10-11 | the computed slope and intercept solve both normal equations of the least-squares line |
| Linear.FitSolvesNormalEquations | src/app/api/linear-regression/route.ts:10-11 | on data, the fitted line solves the normal equations and passes through the mean point `(Σx/n, Σy/n)` |
| Linear.SolutionLeast | src/app/api/linear-regression/route.ts:10-11 | with a positive spread, a solution of the normal equations has a squared error no larger than any other line's, and equal only for itself |
| Linear.LeastSquares | src/app/api/linear-regression/route.ts:10-16 | the fitted line's squared error is at most that of every line, and no other line reaches it |
| Linear.TotalSSIsSSE | src/app/api/linear-regression/route.ts:14-15 | ssTot is the squared error of the horizontal line through the mean y |
| Linear.FlatIff | src/app/api/linear-regression/route.ts:14-15 | all points lie on the horizontal line through the mean y exactly when all y values are equal |
| Linear.FitSquaredErrors | src/app/api/linear-regression/route.ts:14-17 | once the slope is a number, R² is `1 − SSE(fit) / SSE(mean line)` |
| Linear.RSquaredFiniteIff | src/app/api/linear-regression/route.ts:17 | R² is a number exactly when neither all x values nor all y values are equal |
| Linear.RSquaredBounds | src/app/api/linear-regression/route.ts:14-17 | a numeric R² lies in [0, 1]; it is 1 exactly when every point is on the fitted line, and 0 exactly when the slope is 0 |
| Linear.ExactLine | src/app/api/linear-regression/route.ts:10-17 | points on one line with two distinct x values give back that line; R² is 1, or not a number for a horizontal line |
| Linear.TwoPointsExact | src/app/api/linear-regression/route.ts:10-11 | two points with different x values both lie on the fitted line |
| Linear.ExactLineRegression | src/app/api/linear-regression/route.ts:3-19 | an exact non-horizontal line is returned by `linearRegression` with R² equal to 1 |
| Linear.RouteExampleLinear | src/app/api/linear-regression/route.test.ts:6-10 | the first test's data `(1,2), (2,4)` is fitted with slope 2, intercept 0 and R² 1 |
| Quadratic.FirstColumn | src/app/api/linear-regression/route.ts:37-39 | `D` and `Dc` expand along the first column with the same cofactors, and the other two columns against those cofactors give 0 |
| Quadratic.SecondColumn | src/app/api/linear-regression/route.ts:37-40 | `D` and `Db` expand along the second column with the same cofactors, and the other columns against them give 0 |
| Quadratic.ThirdColumn | src/app/api/linear-regression/route.ts:37-41 | `D` and `Da` expand along the third column with the same cofactors, and the other columns against them give 0 |
| Quadratic.CramerRow1 | src/app/api/linear-regression/route.ts:37-41 | `n·Dc + Σx·Db + Σx²·Da = Σy·D`: the first normal equation scaled by `D` |
| Quadratic.CramerRow2 | src/app/api/linear-regression/route.ts:37-41 | `Σx·Dc + Σx²·Db + Σx³·Da = Σxy·D` |
| Quadratic.CramerRow3 | src/app/api/linear-regression/route.ts:37-41 | `Σx²·Dc + Σx³·Db + Σx⁴·Da = Σx²y·D` |
| Quadratic.CramerSolution | src/app/api/linear-regression/route.ts:37-44 | when `D ≠ 0`, `(Da/D, Db/D, Dc/D)` solves all three normal equations |
| Quadratic.CramerOfSolution | src/app/api/linear-regression/route.ts:37-41 | any solution `(a, b, c)` of the normal equations has `Dc = c·D`, `Db = b·D` and `Da = a·D` |
| Quadratic.CramerUnique | src/app/api/linear-regression/route.ts:37-44 | when `D ≠ 0`, every solution of the normal equations is Cramer's |
| Quadratic.QuadraticFit | src/app/api/linear-regression/route.ts:21-47 | no fit exactly when there are fewer than three points or `D` is exactly 0; otherwise the coefficients solve the normal equations |
| Quadratic.PolynomialRegression | src/app/api/linear-regression/route.ts:21-47 | the imperative fitter returns `QuadraticFit` of its data |
| Quadratic.AccumulatePowerSums | src/app/api/linear-regression/route.ts:25-36 | the loop's seven accumulators end as the power sums of all the data |
| Quadratic.GapsAreResidualMoments | src/app/api/linear-regression/route.ts:27-36 | how far `(a, b, c)` is from each normal equation equals `Σr`, `Σr·x` or `Σr·x²` over the residuals `r` |
| Quadratic.ResidualsOnParabola | src/app/api/linear-regression/route.ts:27-36 | points on a parabola have all three residual moments zero |
| Quadratic.ExactParabola | src/app/api/linear-regression/route.ts:21-47 | points on one parabola with `D ≠ 0` give back exactly that parabola |
| Quadratic.GramThree | src/app/api/linear-regression/route.ts:37 | for three points, `D` is the square of the Vandermonde product `(x₁−x₀)(x₂−x₀)(x₂−x₁)` |
| Quadratic.ThreeDistinctDet | src/app/api/linear-regression/route.ts:37-38 | three points with different x values give `D > 0`, so they are never refused |
| Quadratic.VandermondeKernel | src/app/api/linear-regression/route.ts:37-44 | at three distinct x values, residuals orthogonal to `1`, `x` and `x²` are all zero |
| Quadratic.ThreePointsExact | src/app/api/linear-regression/route.ts:21-47 | three points with different x values are all on the fitted parabola |
| Quadratic.RouteExampleQuadratic | src/app/api/linear-regression/route.test.ts:14-18 | the second test's data `(1,2), (2,4), (3,8)` is fitted with `a = 1`, `b = −1`, `c = 2` |
| RegressionRoute.Post | src/app/api/linear-regression/route.ts:49-63 | the status is 200 exactly when the payload is a result, and 400 otherwise; a result needs parsed array data, and it is a line exactly for `linear` and a parabola exactly for `polynomial` |
| RegressionRoute.PostErrors | src/app/api/linear-regression/route.ts:53-61 | an unparsable body, non-array data and an unknown type each get their own 400 message, checked in that order |
| RegressionRoute.PostLinear | src/app/api/linear-regression/route.ts:55-59 | a linear request succeeds exactly when it has at least two points, and then carries `linearRegression`'s fit; otherwise 400 "Gagal menghitung model" |
| RegressionRoute.PostPolynomial | src/app/api/linear-regression/route.ts:56-59 | a polynomial request succeeds exactly when it has three points or more and `D ≠ 0`; in particular, three points with distinct x always succeed; a refused one gets 400 "Gagal menghitung model" |
| RegressionRoute.PostParabola | src/app/api/linear-regression/route.ts:56-59 | a polynomial request carries `polynomialRegression`'s fit whenever there is one |
| RegressionRoute.PostLinearExample | src/app/api/linear-regression/route.test.ts:5-11 | the first test's request gets 200 with `y = 2·x` |
| RegressionRoute.PostPolynomialExample | src/app/api/linear-regression/route.test.ts:13-19 | the second test's request gets 200 with `y = x² − x + 2` |
| RegressionRoute.PostUnknownTypeExample | src/app/api/linear-regression/route.test.ts:21-26 | the third test's request gets 400 "Tipe model tidak valid" |
| MlRoute.ManualLinearRegression | src/app/api/ml/route.ts:204-235 | slope, intercept and R² are exactly those of `linearRegression` for two points or more, and all not a number below that; one prediction per point, in order, with `x`, `actual` and `slope·x + intercept` |
| MlRoute.PredictionSS | src/app/api/ml/route.ts:224 | the sum over `predictions` is a number exactly when every prediction is, and it is never negative |
| MlRoute.Predictions | src/app/api/ml/route.ts:218-222 | one entry per point, in input order, copying `x` and `y` and predicting `slope·x + intercept` |
| MlRoute.PredictionSSIsResidualSS | src/app/api/ml/route.ts:224 | summing the squared errors over `predictions` gives the residual sum of squares of the line over the data |
| MlRoute.Distinct | src/app/api/ml/route.ts:239 | `[...new Set(labels)]` is no longer than the labels, and it is non-empty when there are labels |
| MlRoute.DistinctMembers | src/app/api/ml/route.ts:239 | a value is a class exactly when it is one of the labels |
| MlRoute.DistinctNoRepeats | src/app/api/ml/route.ts:239 | no class is listed twice |
| MlRoute.DistinctOrder | src/app/api/ml/route.ts:239 | the classes are labels, listed in the order of their first occurrence |
| MlRoute.DistinctNonEmpty | src/app/api/ml/route.ts:239 | there is a class exactly when there is a label |
| MlRoute.ManualClassification | src/app/api/ml/route.ts:237-254 | one prediction per label; its `actual` is that label and its `predicted` is one of the labels; `classes` is `Distinct(labels)` and `accuracy` is the number of hits divided by the number of labels |
| MlRoute.RoundRobin | src/app/api/ml/route.ts:240-244 | one prediction per label, in order, with that label as `actual` and `classes[i mod \|classes\|]` as `predicted` |
| MlRoute.Hits | src/app/api/ml/route.ts:246 | the number of correct predictions is at most the number of predictions |
| MlRoute.RoundRobinLabels | src/app/api/ml/route.ts:240-244 | label `i` is predicted as `classes[i mod \|classes\|]` |
| MlRoute.AccuracyBounds | src/app/api/ml/route.ts:246 | accuracy is a number exactly when there are labels, and it then lies in [0, 1]; with a single class it is 1 |
| MlRoute.ClusterCount | src/app/api/ml/route.ts:257 | `params.k \|\| 3`: a given non-zero `k` is kept, and an absent or zero one becomes 3 |
| MlRoute.ManualClustering | src/app/api/ml/route.ts:256-275 | fails exactly when `k ≥ 2³²`, where creating the array throws, or when `k` is negative and there is a point to push; otherwise `totalClusters = k`, and for positive `k` there are `k` clusters with ids `0 … k−1`, cluster `c` holding the points with index ≡ c (mod k) |
| MlRoute.Bucket | src/app/api/ml/route.ts:264-267 | a cluster never holds more points than the data, and a cluster id of `k` or more gets none |
| MlRoute.BucketSize | src/app/api/ml/route.ts:264-267 | cluster `c` holds `⌈(n − c) / k⌉` points |
| MlRoute.BucketElements | src/app/api/ml/route.ts:264-267 | the `t`-th point of cluster `c` is `data[c + t·k]` |
| MlRoute.PointPlacement | src/app/api/ml/route.ts:264-267 | point `j` is in cluster `j mod k`, at position `j / k` |
| MlRoute.ClusterSizesSum | src/app/api/ml/route.ts:264-267 | the cluster sizes add up to the number of points, so every point is in exactly one cluster |

## Left out

- The `equation` strings. `toFixed(4)` and `toFixed(2)` are float-to-decimal
  formatting, so no string is modelled.
- Every field drawn from `Math.random`, and `manualNeuralNetwork`. These
  fields are the classification `confidence`, `generateMockConfusionMatrix`,
  the cluster centres, `withinClusterSS` and `silhouetteScore`.
- IEEE-754 double arithmetic:
  - numbers are exact reals, with no rounding and no overflow;
  - NaN, +Infinity and −Infinity are one value, `NonFinite`;
  - so every zero test is made on exact values, where rounded ones could
    differ: `D === 0`, the slope's divisor `n·Σx² − (Σx)²` and ssTot.
    `SlopeFiniteIff`, `RSquaredFiniteIff`, `ExactLine` and the edge cases
    above are facts of the exact model. In doubles, equal x values can still
    give a finite slope, and equal y values such as three copies of 0.1 can
    give a finite R².
- The ml route's `POST` and the `perform…` functions. They call the Z-AI
  service over the network, and their answers are not part of this model.
- `NextResponse` and HTTP plumbing. A body that `req.json()` rejects is
  `None`, and only the status and payload of a response are modelled.
- Points whose `x` or `y` is not a number. Every point is a pair of reals, so
  arithmetic on `undefined` or strings is not modelled.
- `params.k` that is not an integer. `ClusterCount` takes an optional integer,
  so fractional, string or NaN values of `k` are not modelled.
- `manualClassification` reads only `label` from each point. Labels are
  compared with `==`, as a `Set` and `===` compare primitives; object labels
  compared by reference are not modelled.

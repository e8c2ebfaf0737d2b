# Moran's I: a verified model of the numerical core of MoransIapp

MoransIapp is a Tk desktop tool. It reads a polygon shapefile, lets the user pick a numeric attribute and
computes global Moran's I for it. Spatial weights come from one of three schemes:

- contiguity (Rook or Queen);
- k nearest centroids;
- k nearest centroids with inverse-distance weights.

A 999-trial permutation test follows, and before any of this an optional Tukey (1.5·IQR) outlier screen
can drop rows. All of the arithmetic lives in the class `MainWindow` of `MoransIapp.py`.

This project models that arithmetic in Dafny and proves its properties. Each module follows one part of
the pipeline:

| module | file | models |
|---|---|---|
| `Vectors` | vectors.dfy | `np.sum`, fancy indexing `x[p]` and index permutations. Permuting keeps the multiset and so the sum. |
| `Sorting` | sorting.dfy | The sorted arrangement (insertion sort) and its uniqueness. Order-statistic membership. The `np.unique` step of `setdiff1d`. |
| `Weights` | weights.dfy | The contiguity table truncated by `cumsum <= k`. The k-nearest table of lines 546 and 578, where `np.isin` looks every distance up among the nearest values of all rows pooled, with weight 1 or `1/D^p`, and beside it the row-wise table those lines evidently intend. Row normalisation with `inf`/`nan` mapped to 0. |
| `Kernel` | kernel.dfy | `MIcalc`: deviations, their outer product, the W-weighted sum, and the quotient by the sum of squared deviations. |
| `Outliers` | outliers.dfy | `checkOutliers`: linearly interpolated quartiles, the fences, `data_clean`, `outlist` as `np.setdiff1d`, and the row removal. |
| `Inference` | inference.dfy | The arithmetic of `Permutations`: the reshuffled vectors, the trial statistics, `np.mean` of `MIreps`, and `EI = -1/(n-1)`. |
| `Session` | session.dfy | `class MainWindow`, with 17 of the attributes the modelled methods assign as fields (`polygons`, `ft`, `n`, `outlist`, `Cs`, `Rs`, `Ws`, `dev`, `Sdev2`, `devp`, `Swtf`, `MoransI`, `MIreps`, `originalMI`, `MIm`, `EI`, `pvalue`) and one method per source method. |

Conventions of the model:

- **Numbers.** numpy floats are exact `real`s and matrices are `seq<seq<real>>`. The 0/0 of `MIcalc` on a
  constant column gives `nan` in numpy; here that case is the value `Kernel.Degenerate`. Row
  normalisation maps a zero row to zeros, as the source's `inf` mask and `nan_to_num` do.
- **Inputs that replace foreign calls.** Three things the source obtains from libraries are passed in as
  values:
  - The geometric table. For contiguity this is `related`, the `intersects` or `touches` table. For the
    distance schemes it is the centroid distance matrix `dists`.
  - The rows of `np.argsort(dists, 1)`, as `orders`. Each row is required to be an index permutation that
    visits its row's values in ascending order, and ties may fall in any order.
  - The 999 results of `np.random.permutation`, as `perms`. Each is an index permutation of `0..n-1`.
- **`Permutations` and E[I].** `-1/(len(ft) - 1)` is Python arithmetic, so a single observation raises
  `ZeroDivisionError`. `Permutations` reports that as `ok == false`, with `EI` and `pvalue` left untouched.

The imperative parts stay imperative. `MainWindow`'s methods assign its fields. Each method's `ensures`
names the fields it changes and ties them to the specification functions of the other modules. The
predicate `Kernelled` gathers the five kernel fields (`dev`, `Sdev2`, `devp`, `Swtf`, `MoransI`), and
every method that ends in `MIcalc` ensures it. The loop of
`Permutations` is a `while` loop that keeps the invariant "`ft` is the observed vector shuffled `i` times
and `MIreps` has gained the first `i` trial statistics".

## Model

| member | source | states |
|---|---|---|
| Vectors.SumPermutation | MoransIapp.py:602 | Two vectors with the same multiset of values have the same `np.sum`. |
| Vectors.Gather | MoransIapp.py:649 | Fancy indexing `x[p]` has one entry per index, and entry t is `x[p[t]]`. |
| Vectors.GatherPermutation | MoransIapp.py:649 | Indexing a vector through an index permutation of its positions keeps its multiset of values. |
| Vectors.GatherSum | MoransIapp.py:649 | Indexing through an index permutation keeps the sum. |
| Vectors.SumScale | MoransIapp.py:526 | Multiplying every entry by f multiplies the sum by f. |
| Vectors.SumShift | MoransIapp.py:596 | Subtracting c from every entry subtracts n·c from the sum. |
| Vectors.SumNonNegative | MoransIapp.py:602 | A sum of non-negative entries is non-negative, and it is 0 exactly when every entry is 0. |
| Sorting.Sort | MoransIapp.py:257-258 | The sorted arrangement is sorted, has the same multiset as the input, and so has the same length. |
| Sorting.Insert | MoransIapp.py:257-258 | Inserting into a sorted vector keeps it sorted and adds exactly one copy of the value. |
| Sorting.SortedUnique | MoransIapp.py:540 | Two sorted vectors with the same multiset are equal, so a sorted permutation is unique whatever the order of ties. |
| Sorting.SortedPrefixMembership | MoransIapp.py:543-546 | A value that occurs in a sorted vector occurs among its first m entries exactly when it is at most the m-th entry. |
| Sorting.Dedup | MoransIapp.py:264 | Dropping repeated neighbours of a sorted vector gives a strictly increasing vector with the same members. |
| Weights.Adjacency | MoransIapp.py:513-517 | The 0/1 cast of the predicate table is square with a zero diagonal and 0/1 rows. Off the diagonal an entry is 1 exactly when the polygons are related. |
| Weights.TruncateRow | MoransIapp.py:518 | A truncated row has the length of the adjacency row, is 0/1, and keeps a 1 only where the adjacency row has one. |
| Weights.ContiguityWeights | MoransIapp.py:516-518 | C is n by n with 0/1 rows. |
| Weights.SumCountsOnes | MoransIapp.py:518 | On a 0/1 row the running sum counts the ones. |
| Weights.TruncatePrefixCount | MoransIapp.py:518 | Among the first j positions, the truncated row keeps min(k, the number of ones of the adjacency row there). |
| Weights.ContiguityRowCount | MoransIapp.py:518 | Every row of C is 0/1 and keeps min(k, deg i) neighbours, hence at most k. |
| Weights.ContiguityKeepsFirstNeighbours | MoransIapp.py:516-518 | C <= A entrywise and `C[i][i] = 0`. A neighbour is dropped only once k earlier neighbours have been kept, and a kept neighbour has every earlier neighbour kept too. |
| Weights.NearestValues | MoransIapp.py:540-543 | One row of `mindists` holds min(k+1, n) values, each of them a value of the row. |
| Weights.MinDists | MoransIapp.py:540-543 | `mindists` has one row per point and min(k+1, n) columns. |
| Weights.Flatten | MoransIapp.py:546 | The flattened second argument of `np.isin` holds a value exactly when some row of `mindists` holds it. |
| Weights.EdgeWeight | MoransIapp.py:577-578 | The weight of a selected neighbour at a positive distance is positive: 1, or 1/D^p. |
| Weights.SelectRow | MoransIapp.py:546 | One row of `np.where((D > 0) & np.isin(D, pool), w, 0)` has the row's length and non-negative entries, and an entry is non-zero only at a positive distance that occurs in the pool. |
| Weights.IsinWeights | MoransIapp.py:540-546 | The table of lines 546 and 578 is n by n and non-negative. |
| Weights.KNearestRow | MoransIapp.py:540-546 | A row-wise k-nearest row has the length of the distance row. |
| Weights.KNearestWeights | MoransIapp.py:540-546 | The row-wise k-nearest table is n by n and non-negative. |
| Weights.ArgsortValues | MoransIapp.py:540-543 | Any valid argsort of a row visits exactly the sorted row. |
| Weights.NearestValuesMembers | MoransIapp.py:540-543 | A value is in a row's `mindists` exactly when it occurs in the row and is at most the row's k-th (0-based) smallest entry, whatever order the argsort gave to ties. |
| Weights.NearestMembership | MoransIapp.py:540-546 | A distance of a row is among that row's `mindists` exactly when it is at most the row's k-th smallest entry. |
| Weights.PoolMembers | MoransIapp.py:543-546 | The flattened `mindists` holds a value exactly when the value is among the k+1 nearest of some row. |
| Weights.IsinSelection | MoransIapp.py:571-578 | `C[i][j]` is the scheme's weight of `D[i][j]` when `D[i][j] > 0` and is among the k+1 nearest values of some row, and 0 otherwise. A zero diagonal carries over. |
| Weights.KNearestSelection | MoransIapp.py:540-546 | In the row-wise table, `C[i][j]` is the scheme's weight when `0 < D[i][j] <=` the k-th smallest entry of row i, and 0 otherwise. A zero diagonal carries over. |
| Weights.RowWiseWithinIsin | MoransIapp.py:546 | The row-wise table is entrywise at most the pooled table, and both agree wherever the row-wise table selects a neighbour. |
| Weights.KNearestTieIndependent | MoransIapp.py:540-546 | Two valid argsorts of the same distances give the same table of lines 546/578. |
| Weights.InversePowerZeroIsBinary | MoransIapp.py:577-578 | The table of line 578 with p = 0 is the table of line 546. |
| Weights.PowerZeroRow | MoransIapp.py:577-578 | On one row, power 0 selects the same positions with the same weights as the binary scheme. |
| Weights.KNearestAllWhenKLarge | MoransIapp.py:546 | With k >= n-1, the table of lines 546/578 selects every position at a positive distance. |
| Weights.TiedDistancesExceedK | MoransIapp.py:540-546 | Tied distances give a row more than k neighbours: with k = 1, the row [0, 1, 1] selects two positions. |
| Weights.IsinExceedsK | MoransIapp.py:546 | On four points at 0, 1, 3 and 7 with k = 1 and no ties, row 1 of the pooled table is [1, 0, 1, 0]: two neighbours. |
| Weights.RowWiseKeepsK | MoransIapp.py:546 | On the same four points, row 1 of the row-wise table is [1, 0, 0, 0]: one neighbour. |
| Weights.RowSums | MoransIapp.py:521 | `Rs` has one entry per row, the sum of that row. |
| Weights.NormalizeRow | MoransIapp.py:525-528 | A row of W has the length of its row of C and is 0 wherever C is 0. |
| Weights.Normalize | MoransIapp.py:556-559 | W has as many rows as C, each of the same length. |
| Weights.NormalizeRowSum | MoransIapp.py:525-528 | A row of W sums to 1 when its raw sum is non-zero and to 0 when the row has no weight. |
| Weights.NormalizeRowSums | MoransIapp.py:521-528 | W has the shape of C, and row i of W sums to 0 when `Rs[i] = 0` and to 1 otherwise. |
| Weights.NormalizeRecovers | MoransIapp.py:555-559 | `W[i][j]·R[i] = C[i][j]` on every row with weight, and the other rows of W are zero. |
| Weights.NormalizeEntry | MoransIapp.py:586-590 | One entry of W is `C[i][j]/R[i]`, or 0 on a zero row. It is non-negative when the row is, and 0 where C is. |
| Weights.NormalizeKeepsSignAndDiagonal | MoransIapp.py:525-528 | Non-negative weights stay non-negative, and a zero diagonal stays zero. |
| Weights.ZeroRowOnlyNaN | MoransIapp.py:525-528 | A non-negative row with sum 0 is all zero, so its quotients are all 0/0 (nan) and never inf. |
| Weights.UniformWhenAllNeighbours | MoransIapp.py:546-559 | With k = n-1 on distinct points, every row of W built from the table of line 546 is 1/(n-1) off the diagonal and 0 on it. |
| Weights.UniformNormalize | MoransIapp.py:555-559 | The table with zeros on the diagonal and ones elsewhere normalises to 1/(n-1) off the diagonal. |
| Kernel.Mean | MoransIapp.py:596 | n times the mean is the sum. |
| Kernel.Deviations | MoransIapp.py:596 | `dev` has one entry per observation, the observation minus the mean. |
| Kernel.CrossProducts | MoransIapp.py:605-606 | `devp` is n by n. |
| Kernel.CrossProductsProperties | MoransIapp.py:605-606 | `devp` is symmetric, with `dev[i]²` on its diagonal. |
| Kernel.WeightedSum | MoransIapp.py:607-610 | `Swtf` is 0 when every weight is 0. |
| Kernel.MoransI | MoransIapp.py:594-613 | Moran's I is the 0/0 case exactly when the column is constant, the empty column included. |
| Kernel.ZeroSpreadIffConstant | MoransIapp.py:599-602 | `Sdev2 = 0` exactly when the column is constant. |
| Kernel.DeviationsSumToZero | MoransIapp.py:596 | The deviations from the mean sum to 0. |
| Kernel.SquaredDeviationSumZero | MoransIapp.py:599-602 | `Sdev2 >= 0`, and `Sdev2 = 0` exactly when every deviation is 0. |
| Kernel.ConstantMean | MoransIapp.py:596 | A constant non-empty column has that constant as its mean. |
| Kernel.ShiftInvariant | MoransIapp.py:594-613 | Adding one constant to every observation leaves I unchanged. |
| Kernel.PermutedKernelInputs | MoransIapp.py:649-650 | A reshuffled column has the same mean and `Sdev2`, and its deviations are the old deviations reshuffled the same way. |
| Kernel.PermutedDegenerate | MoransIapp.py:649-650 | A reshuffled column is degenerate exactly when the original is. |
| Outliers.Select | MoransIapp.py:261 | Boolean masking keeps exactly the entries that pass and never adds any. |
| Outliers.SelectConcat | MoransIapp.py:271 | Masking distributes over concatenation, so the kept entries stay in their original order. |
| Outliers.ValuesSelect | MoransIapp.py:271-272 | Masking rows by their value, then reading the column, equals masking the column. |
| Outliers.Quantile | MoransIapp.py:257-258 | A linearly interpolated quantile lies between the smallest and the largest value. |
| Outliers.Interpolate | MoransIapp.py:257-258 | The interpolated value lies between the two order statistics it interpolates. |
| Outliers.QuantileMonotone | MoransIapp.py:257-258 | The quantile is monotone in q. |
| Outliers.QuantileConstant | MoransIapp.py:257-258 | Every quantile of a constant column is that constant. |
| Outliers.Q1 | MoransIapp.py:257 | Q1 lies between the smallest and the largest observation. |
| Outliers.Q3 | MoransIapp.py:258 | Q3 lies between the smallest and the largest observation. |
| Outliers.IQR | MoransIapp.py:259-261 | `IQR >= 0`, and the lower fence never lies above the upper one. |
| Outliers.Inside | MoransIapp.py:261 | Every value between Q1 and Q3 is kept by the mask. |
| Outliers.CleanData | MoransIapp.py:261 | `data_clean` is never longer than the column, and holds v exactly when v is an observation inside the fences. |
| Outliers.SetDiff | MoransIapp.py:264 | `np.setdiff1d(a, b)` is strictly increasing, and v is in it exactly when it is in a and not in b. |
| Outliers.OutlierList | MoransIapp.py:261-264 | `outlist` is strictly increasing, and v is in it exactly when v is an observation outside the fences. |
| Outliers.Survivors | MoransIapp.py:271 | The surviving rows are never more than before, and a row survives exactly when it was a row and its value is not in `outlist`. |
| Outliers.ConstantHasNoOutliers | MoransIapp.py:256-264 | A constant column has an empty `outlist`. |
| Outliers.FivePointQuartiles | MoransIapp.py:257-258 | For any five observations, in whatever order, Q1 and Q3 are the second and fourth order statistics. |
| Outliers.FivePointFences | MoransIapp.py:257-261 | The column [1, 2, 3, 4, 100] has Q1 = 2 and Q3 = 4, so its fences are -1 and 7. |
| Outliers.FivePointExample | MoransIapp.py:256-264 | The column [1, 2, 3, 4, 100] has `outlist = [100]`. |
| Outliers.NoOutliersAllClean | MoransIapp.py:261-266 | When nothing is flagged, `data_clean` is the whole column. |
| Outliers.SurvivorsProperties | MoransIapp.py:271 | Removal keeps the surviving rows in their original order: it distributes over concatenation. |
| Outliers.RemovalLeavesCleanData | MoransIapp.py:261-272 | After removal the new column `ft` equals `data_clean`. |
| Inference.Shuffle | MoransIapp.py:648-649 | Every trial vector has the length and the multiset of values of the observed one. |
| Inference.TrialStatistics | MoransIapp.py:648-651 | The first m trials give m statistics. What they are is stated by `TrialStep` and `TrialDefinedIffObserved`. |
| Inference.TrialDefinedIffObserved | MoransIapp.py:650-651 | Each trial statistic is defined exactly when the observed one is. |
| Inference.TrialStep | MoransIapp.py:650-651 | One more trial appends the statistic of the newly shuffled vector and leaves the earlier entries as they were. |
| Inference.TrialExtends | MoransIapp.py:648-651 | One pass of the loop takes the state after m trials to the state after m+1 trials. |
| Inference.ShuffleKeepsKernelInputs | MoransIapp.py:649-650 | Every trial vector has the observed mean and `Sdev2`. |
| Inference.ObservedAndTrialsDefined | MoransIapp.py:647-651 | In `[observed] + trials`, either every entry is defined or none is: a constant column makes all of them nan. |
| Inference.RepsSum | MoransIapp.py:654 | The sum of `MIreps` is defined exactly when every entry is. |
| Inference.RepsSumValue | MoransIapp.py:654 | When every entry is defined, the sum of `MIreps` is the sum of the values. |
| Inference.MeanOfReps | MoransIapp.py:654 | `MIm` is defined exactly when `MIreps` is non-empty and holds no nan. |
| Inference.MeanOfRepsValue | MoransIapp.py:654 | A defined `MIm` is the sum of the values divided by their count. |
| Inference.SumBounds | MoransIapp.py:654 | A sum of n entries in [lo, hi] lies in [n·lo, n·hi]. |
| Inference.MeanOfRepsBounds | MoransIapp.py:654 | `MIm` lies between the smallest and the largest statistic. |
| Inference.ExpectedI | MoransIapp.py:656 | `-1/(n-1)` raises exactly when n = 1, and for n >= 2 it lies in [-1, 0). |
| Inference.ExpectedIValue | MoransIapp.py:656 | For n != 1, `EI·(n-1) = -1`. It is 1 for n = 0 and -1 for n = 2. |
| Session.MainWindow.constructor | MoransIapp.py:206-209 | After a column is chosen, `ft` is that column of the rows and n is its length. `MoransI` starts at 0. `outlist` and `MIreps` start empty only as placeholders: the source first assigns them at lines 264 and 489. |
| Session.MainWindow.CheckOutliers | MoransIapp.py:255-279 | `outlist` is the screen of the old column. When it is non-empty and the user answers yes, the rows whose value it lists are dropped and `ft` is re-read from the surviving rows, which is `data_clean` when the old `ft` was the column of the rows. Otherwise rows and column are unchanged. |
| Session.MainWindow.RemoveOutliers | MoransIapp.py:270-273 | The surviving rows replace `polygons`, `ft` is re-read and n is its length. When `outlist` came from the screen, the new `ft` equals `data_clean`. |
| Session.MainWindow.MIcalc | MoransIapp.py:594-613 | `dev`, `Sdev2`, `devp`, `Swtf` and `MoransI` are the kernel quantities of `ft` under `Ws`, and nothing else changes. |
| Session.MainWindow.SetWeights | MoransIapp.py:521-528 | `Cs` is the given table, `Rs` its row sums, and `Ws` its normalised form, n by n. |
| Session.MainWindow.Analyse | MoransIapp.py:507-530 | `ft` is re-read from the rows, the weight tables are set from the given table, and the five kernel fields are those of `ft` under `Ws`. |
| Session.MainWindow.NeighborMoransI | MoransIapp.py:506-530 | The weight tables come from the contiguity table truncated to k neighbours, and the kernel fields are those of the re-read column under `Ws`. |
| Session.MainWindow.KNearestMoransI | MoransIapp.py:535-561 | The weight tables come from the pooled `isin` table of the given scheme, and the kernel fields are those of the re-read column under `Ws`. |
| Session.MainWindow.DistanceMoransI | MoransIapp.py:535-561 | The same, with weight 1 on every selected neighbour (line 546). |
| Session.MainWindow.IDWMoransI | MoransIapp.py:566-592 | The same, with weight 1/D^p on every selected neighbour (line 578). |
| Session.MainWindow.CalcMoransI | MoransIapp.py:485-501 | The builder of the selected method runs: `Cs`, `Rs` and `Ws` come from its table and the kernel fields from the re-read column. `MIreps` becomes `[MoransI]`, except on a constant column, where the scatter plot raises first and `MIreps` keeps its old value. With no method selected nothing changes. |
| Session.MainWindow.PlotAndStartReps | MoransIapp.py:488-489 | `MIreps` becomes `[MoransI]` when the statistic is defined and keeps its old value when the plot raises on nan. |
| Session.MainWindow.Trial | MoransIapp.py:649-651 | One trial reshuffles `ft` by the drawn permutation, reruns the kernel (all five fields) and appends its statistic to `MIreps`. |
| Session.MainWindow.Advance | MoransIapp.py:648-651 | A trial takes the state after i trials to the state after i+1 trials, with the kernel fields those of the new vector. |
| Session.MainWindow.RunTrials | MoransIapp.py:648-651 | After the loop, `ft` is the observed vector shuffled by every permutation in turn, and `MIreps` has gained the trial statistics in order. The kernel fields, `devp` included, are those of the last trial. |
| Session.MainWindow.Summarize | MoransIapp.py:653-660 | `MIm` is the mean of `MIreps`. Unless `len(ft)` is 1, `EI = -1/(len(ft)-1)` and `pvalue = 0.001`. |
| Session.MainWindow.Resample | MoransIapp.py:647-651 | `originalMI` keeps the observed statistic and the trials run, leaving the kernel fields of the last trial. Starting from `MIreps = [observed]`, there are `|perms| + 1` entries, entry 0 is `originalMI`, and either all are defined or none is. |
| Session.MainWindow.Permutations | MoransIapp.py:646-660 | The 999 trials run and their statistics follow the observed one in `MIreps`. `ft` and the kernel fields, the exported `devp` included, hold the last trial, and `MIm`, `EI` and `pvalue` are set as above. |

## Findings

| source | as written | input that shows it | evidently intended | confidence | as-written member | corrected member |
|---|---|---|---|---|---|---|
| MoransIapp.py:546 and 578 | `np.isin(D, mindists)` flattens `mindists`, so each distance is looked up among the k+1 nearest values of every row pooled together | four points on a line at 0, 1, 3 and 7 with k = 1: row 1 gets neighbours 0 and 2, because 2.0 is the nearest distance of row 2 | each row keeps its own k nearest neighbours (ties aside) | medium, not executed | Weights.IsinExceedsK | Weights.RowWiseKeepsK |

The session methods follow the program as written and build their weights from `Weights.IsinWeights`.
The corrected, row-wise table is `Weights.KNearestWeights`, with its closed form `Weights.KNearestSelection`.
`Weights.RowWiseWithinIsin` proves that the corrected table only ever drops neighbours of the pooled one.

## Left out

- The Tk interface, its dialogs and buttons (the results button that line 501 enables included), text export and the matplotlib plots (`plotData`, `plotData2`, `MoransIscatterPlot`, the histogram of `Permutations`) are user interface and file I/O. The yes/no answer of the outlier dialog is the `remove` parameter of `CheckOutliers`.
- Reading the shapefile and the geometry are calls into GeoPandas and Shapely. This covers `buffer`, `intersects`, `touches`, `centroid` and the centroid distances. The contiguity table and the distance matrix are inputs.
- The cumulative re-buffering of line 508 is not modelled. Line 508 replaces the polygons' geometry with its buffer, so repeated runs buffer again, but only the geometry, which is an input here, is affected.
- The Rook/Queen choice (lines 512-515) only chooses which predicate table is passed in as `related`.
- `np.argsort` and `np.random.permutation` are library calls. They are inputs: `orders` is constrained to be a valid argsort and `perms` to be index permutations. Randomness itself is not modelled.
- `np.std`, `MIstd`, the z-score and `stats.norm.pdf` need square roots or distributions and are not modelled.
- Session.MainWindow.CalcMoransI: the scatter plot of a constant column is modelled only by its effect. Its z-scores are 0/0, `plt.xlim` raises on the nan limits, and `MIreps` is not set. The exception itself and the plot are not modelled.
- Session.MainWindow.Permutations: requires `Ws` to be n by n for the current column. In the source, a later outlier removal shrinks `ft` and n but leaves `Ws` at the old size. Line 607 then raises a broadcasting ValueError in the first trial, after lines 647 and 649 have already reassigned `originalMI` and `ft`. That crash is not modelled.
- Session.MainWindow.Permutations: the `np.round(MIreps, 5)` of line 657 is not modelled. It comes after `MIm` is computed and affects only the stored and plotted list.
- Session.MainWindow.Permutations: the append of line 651 only works while `MIreps` is still a Python list, which `calcMoransI` sets. Line 653 turns it into an array, so a second `Permutations` without a new `calcMoransI` would fail. The model lets `MIreps` stay a sequence.
- IEEE floating point is modelled by exact reals. This covers rounding, `nan`, `inf` and `nan_to_num`. The 0/0 of the kernel is the value `Degenerate`. A zero row of the weight table becomes zeros, which `Weights.ZeroRowOnlyNaN` shows is what the source's clean-up gives. An empty column has no quantiles (nan in pandas), so nothing is flagged.
- `Outliers.Inside`: `.any(axis=1)` on a one-column frame is read as the per-value mask, and every column other than the attribute is carried along untouched inside `Feature`.
- The radius slider value `testDist` and the `minDist`/`maxDist` slider bounds do not take part in any computation and are not modelled.
- `calcDistances` computes the distance matrix when the method is chosen, and `Methodclick` holds it; both are not part of this model.
- Session.MainWindow.KNearestMoransI (and so `DistanceMoransI`, `IDWMoransI` and `CalcMoransI`): requires `dists` to be n by n for the current rows. In the source, an outlier removal after the method was chosen shrinks n, while `dists` stays N by N unless the method is chosen again. At line 546 or 578, `self.dists > 0` (N by N) is then combined with `np.isin(self.dists[self.xrange,:], …)` (n by N). That raises a broadcasting ValueError, after line 537 or 568 has already re-read `ft`. That crash is not modelled.
- The other attributes the modelled methods assign are not fields of `MainWindow`. Each is the value of a function or an input:
  - `data_clean` (lines 261, 263; also read by the plot at line 286) is `Outliers.CleanData`;
  - `mins` (lines 540, 571) is the first k+1 entries of each row of the input `orders`;
  - `mindists` (lines 543, 574) is `Weights.MinDists`, and `xrange` (lines 545, 575) selects every row, so it is implicit in `Weights.IsinWeights`;
  - `idp` (line 577) is `Weights.EdgeWeight` at each positive distance;
  - `dev2` (line 599) is `Vectors.Squares` of the deviations;
  - `wft` (line 607) is `Kernel.Hadamard` of `Ws` and `devp`.
- Converting between DataFrame, Series and array (`pd.DataFrame(self.ft)`, `np.array(...)`) changes only the representation and is not modelled.

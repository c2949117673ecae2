# SPY volatility and VaR backtest — a Dafny model

This project models the discrete bookkeeping of a small Python research
repository. The repository estimates SPY volatility (realized volatility and
GARCH), backtests one-day-ahead Value-at-Risk thresholds built from it, and
labels high-volatility regimes.

The model covers five pieces:

- **`var.py`** (`var.dfy`, module `Var`): the Gaussian and Student-t VaR
  thresholds `mu - sigma * q`, and the Kupiec unconditional-coverage
  statistic `LRuc` with its clipping of `alpha` and `x / T` into
  `[1e-12, 1 - 1e-12]`.
- **`features.py`** (`features.dfy`, module `Features`):
  - `compute_returns` adds `<ticker>_Log_Return` and
    `<ticker>_Squared_Return` columns to the frame it is given, in place
    (class `Frame`), and returns a copy with sorted column labels.
  - `compute_realized_volatility` is modelled with its two `KeyError`
    guards and the trailing-window mean.
- **`walkforward_var.py`, lines 24-113** (`walkforward.dfy`, module
  `WalkForward`):
  - Eight exceedance columns start at 0.
  - For every realized-volatility date but the last, the next trading day
    (found by position in the returns index) is flagged when its return
    falls below the threshold built from that date's volatility.
  - The summary loop counts the flags, reads level, model and distribution
    back from the column label, and calls `LRuc`.
- **`volatility_regime_diagnostic.py`, lines 32-43 and 100-114**
  (`regime.dfy`, module `Regime`): the strict-threshold regime label per
  common date, and the `start`-variable state machine that turns the labels
  into shaded date spans, one per maximal run.
- **`loaders.py`** (`loaders.dfy`, module `Loaders`):
  - `_flatten_columns` reassigns a frame's labels in place (class
    `PriceFrame`).
  - The update step of `load_or_update_spy_prices`: sort the cache, return
    it for an empty download, otherwise concatenate, keep the last row per
    date, and sort.

Shared vocabulary lives in `base.dfy` (`Option`, `Result`, a date-labelled
`Series`, index lookup) and `strings.dfy` (`split`, `join`, `replace`,
`endswith`, lexicographic order and a sort of labels).

The library numerics are parameters of the model: `norm.ppf`, `t.ppf`,
`np.log`, `np.sqrt` and `chi2.cdf`. Dates are day numbers, NaN is `None`,
and prices and returns are Dafny reals.

Where the docstrings and the code disagree, the model follows the code:

- The docstrings of `gaussian_var` and `student_t_var` call `alpha` a
  significance level. The backtest passes the confidence levels 0.99 and
  0.95, and the model uses those.
- `LRuc` is annotated `-> float` but returns the pair `(LR, p_value)`.

## Model

| member | source | states |
|---|---|---|
| Var.GaussianVar | src/spy_volatility/models/var.py:33-50 | The threshold equals `mu` when `sigma = 0`, and lies at or below `mu` for a positive quantile and non-negative `sigma`. |
| Var.StudentTVar | src/spy_volatility/models/var.py:53-72 | The same two facts for the Student-t threshold at `(alpha, nu)`. |
| Var.GaussianVarMonotone | src/spy_volatility/models/var.py:50 | With a positive quantile, a larger `sigma` never raises the Gaussian threshold. |
| Var.StudentTVarMonotone | src/spy_volatility/models/var.py:72 | With a positive quantile, a larger `sigma` never raises the Student-t threshold. |
| Var.GaussianVarDeeperAtHigherLevel | src/spy_volatility/models/var.py:50 | A level with the larger quantile (99% against 95%) gives the lower Gaussian threshold. |
| Var.StudentTVarDeeperAtHigherLevel | src/spy_volatility/models/var.py:72 | A level with the larger quantile gives the lower Student-t threshold. |
| Var.StudentTMatchesGaussian | src/spy_volatility/models/var.py:50-72 | Equal quantile values give equal Gaussian and Student-t thresholds. |
| Var.Clip | src/spy_volatility/models/var.py:93-94 | `np.clip`: the result lies in `[lo, hi]`, equals `v` inside the range, and equals the nearer bound outside it. |
| Var.ClipIdempotent | src/spy_volatility/models/var.py:93 | Clipping twice is clipping once. |
| Var.ClippedAlpha | src/spy_volatility/models/var.py:92-93 | The clipped `alpha` lies in `[1e-12, 1 - 1e-12]`, so both log arguments are strictly inside `(0, 1)`. |
| Var.ClippedRate | src/spy_volatility/models/var.py:94 | For `T != 0`, the clipped rate `x / T` lies in `[1e-12, 1 - 1e-12]`, so both log arguments are strictly inside `(0, 1)`. |
| Var.Lruc | src/spy_volatility/models/var.py:76-101 | Fails with a division by zero exactly when `T = 0`; otherwise returns the pair `(LR, p)` with `p = 1 - chi2.cdf(LR)`. |
| Var.LrucZeroWhenRatesCoincide | src/spy_volatility/models/var.py:96-99 | Null and alternative share their weights, so equal clipped rates give `LR = 0` exactly. |
| Var.LrucClipInvariant | src/spy_volatility/models/var.py:93 | The statistic depends on `alpha` only through its clipped value. |
| Var.NoViolationsClipToEps | src/spy_volatility/models/var.py:94 | With no violations the observed rate is clipped up to `1e-12`. |
| Var.AllViolationsClipBelowOne | src/spy_volatility/models/var.py:94 | With every trial a violation the observed rate is clipped down to `1 - 1e-12`. |
| Var.InteriorRateUnclipped | src/spy_volatility/models/var.py:94 | For `0 < x < T <= 10^12`, clipping leaves `x / T` unchanged. |
| Features.SetColumn | src/spy_volatility/data/features.py:17-18 | `frame[name] = col`: the new column is stored, every other column and the index are unchanged, a new label is appended at the end, and the frame stays well formed. |
| Features.Frame.constructor | src/spy_volatility/data/features.py:4-7 | The frame holds the given table. |
| Features.Frame.Assign | src/spy_volatility/data/features.py:17-18 | The in-place assignment leaves the frame equal to `SetColumn` of its old value. |
| Features.Ticker | src/spy_volatility/data/features.py:13 | `c.split("_")[0]`: the longest prefix of the label without `_`, followed in the label by `_` when it is not the whole label. |
| Features.DerivedNamesDiffer | src/spy_volatility/data/features.py:17-18 | The log-return and squared-return labels of a ticker differ. |
| Features.Squared | src/spy_volatility/data/features.py:18 | `** 2`: defined exactly where the input is, equal to its square there, never negative. |
| Features.WithReturns | src/spy_volatility/data/features.py:12-18 | One pass of the loop adds both derived labels, keeps all earlier labels, and leaves every other column unchanged. |
| Features.ReturnColumns | src/spy_volatility/data/features.py:16-18 | Row `i > 0` of the log-return column is `ln p[i] - ln p[i-1]` where both prices exist; row 0 is undefined. The squared column is defined exactly there and equals the square. |
| Features.ReturnRows | src/spy_volatility/data/features.py:16-18 | The same row-by-row facts for the two columns stored in the frame. |
| Features.AddReturns | src/spy_volatility/data/features.py:12-18 | The whole loop keeps the index and all earlier labels. A stop at a label means that label was requested and is not a column. |
| Features.AddReturnsKeepsOtherColumns | src/spy_volatility/data/features.py:12-18 | A column that is no requested ticker's derived column keeps its presence and its values, whether or not the loop finished. |
| Features.AddReturnsAddsDerivedColumns | src/spy_volatility/data/features.py:12-18 | When every requested label exists, every requested ticker gets both derived columns. |
| Features.AddReturnsGrowsColumns | src/spy_volatility/data/features.py:12-18 | The loop never removes a column. |
| Features.SortColumns | src/spy_volatility/data/features.py:19 | `sort_index(axis=1)`: the same columns and index, labels in ascending order, and the label multiset unchanged. |
| Features.SortedNamesDistinct | src/spy_volatility/data/features.py:19 | Labels in strictly ascending order are distinct. |
| Features.AddDerivedColumns | src/spy_volatility/data/features.py:13-18 | One iteration's two in-place assignments leave the frame equal to `WithReturns` of its old value. |
| Features.ComputeReturns | src/spy_volatility/data/features.py:4-20 | The frame ends as `AddReturns` of its old value. The result is a `KeyError` for the first missing label, or else the column-sorted copy. A single label is treated as a one-label list. |
| Features.RealizedVariance | src/spy_volatility/data/features.py:22-43 | The ticker comes from the last label. No columns is an error. A missing log-return column, then a missing squared-return column, raises `KeyError` with that label; otherwise the result succeeds. Success keeps the index and leaves the first `window - 1` rows undefined. |
| Features.RealizedVolatility | src/spy_volatility/data/features.py:43-45 | Succeeds and fails exactly when the realized variance does. On success it is the square root of every defined variance value. |
| Features.WindowSumNonNegative | src/spy_volatility/data/features.py:43 | A window of non-negative values has a non-negative sum. |
| Features.RealizedVarianceNonNegative | src/spy_volatility/data/features.py:43 | Over non-negative squared returns and a non-negative factor, every defined variance value is non-negative. |
| Features.RealizedVarianceLinear | src/spy_volatility/data/features.py:43 | The realized variance is linear in the annualization factor. |
| Features.SquaredReturnsNonNegative | src/spy_volatility/data/features.py:18 | Every defined squared return is non-negative. |
| WalkForward.Exceeds | scripts/walkforward_var.py:52-54 | `int(future_return < threshold)` is 0 or 1, and is 1 exactly when the return is below the threshold. |
| WalkForward.LoopDates | scripts/walkforward_var.py:44 | `rv252.index[:-1]`: every volatility date but the last, in order. |
| WalkForward.DateError | scripts/walkforward_var.py:45-50 | An iteration raises nothing exactly when the date is in the returns index, has a successor there, and has a GARCH value. The errors come in the loop's order: a date missing from the returns index raises `MissingDate`; a date that is present but last raises `NoNextDay`; a date with a successor but no GARCH value raises `MissingGarch`. |
| WalkForward.FirstError | scripts/walkforward_var.py:44-50 | The loop raises nothing exactly when every loop date is fine; otherwise it raises the error of the first failing date. |
| WalkForward.FlagsAfter | scripts/walkforward_var.py:24-80 | Eight columns, each as long as the returns index. |
| WalkForward.Outcome | scripts/walkforward_var.py:24-80 | The backtest succeeds exactly when every loop date is fine. |
| WalkForward.Backtest | scripts/walkforward_var.py:24-80 | The loop's result equals `Outcome`: the first exception, or the columns in which each loop date's successor row holds its eight indicators. |
| WalkForward.InitialFlags | scripts/walkforward_var.py:24-40 | Before any date is processed every exceedance entry is 0. |
| WalkForward.FirstErrorAt | scripts/walkforward_var.py:44-50 | The first failing date decides the exception. |
| WalkForward.StepFlags | scripts/walkforward_var.py:45-80 | Writing one date's eight flags at the next position turns the columns for the earlier dates into those for one more date. |
| WalkForward.FlagsAreIndicators | scripts/walkforward_var.py:52-80 | Every exceedance entry is 0 or 1. |
| WalkForward.NoLookAhead | scripts/walkforward_var.py:44-80 | The flag of a row is unchanged by any change of volatilities on dates at or after that row's date. |
| WalkForward.WarmUpRowsUnflagged | scripts/walkforward_var.py:24-46 | Rows up to and including the first volatility date are never flagged. |
| WalkForward.LastDateNotForecast | scripts/walkforward_var.py:44 | The row after the last volatility date is never flagged. |
| WalkForward.BacktestSucceeds | scripts/walkforward_var.py:44-50 | If the volatility index is a sorted subset of the sorted returns index and GARCH covers its dates, every position lookup is in bounds and the loop raises nothing. |
| WalkForward.TargetRows | scripts/walkforward_var.py:45-46 | Each loop date writes the row right after it. Distinct loop dates write distinct rows, so each row is written at most once and there are as many written rows as loop dates. |
| WalkForward.BacktestWritesDistinctRows | scripts/walkforward_var.py:44-46 | With distinct volatility dates, a successful backtest writes exactly `|rv.index| - 1` different rows. |
| WalkForward.UnwrittenRowsZero | scripts/walkforward_var.py:24-80 | A row that no loop date targets stays 0 in every column. |
| WalkForward.NestedLevels | scripts/walkforward_var.py:52-80 | With non-negative volatilities and 99% quantiles at least the 95% ones, a 1% exceedance is also a 5% exceedance of the same estimator and distribution. |
| WalkForward.IndicatorSumBounds | scripts/walkforward_var.py:97-98 | An indicator column sums to a count between 0 and its length. |
| WalkForward.ColumnNameFields | scripts/walkforward_var.py:107-108 | Splitting a column label at `_` gives `exceed`, the model, the distribution and the level. |
| WalkForward.ColumnNameLevel | scripts/walkforward_var.py:100 | A label ends with `001` exactly when its level is 1%. |
| WalkForward.ColumnNamesDistinct | scripts/walkforward_var.py:27-40 | Different columns have different labels. |
| WalkForward.Summarize | scripts/walkforward_var.py:85-113 | With zero rows `LRuc` divides by zero. Otherwise there is one record per column, in order, holding the model and distribution read from the label, `alpha` 0.01 or 0.05 by suffix, the rate `x / T` over all rows, and the Kupiec p-value. |
| WalkForward.RatesInUnitInterval | scripts/walkforward_var.py:85-98 | Over indicator columns every exceedance rate lies in `[0, 1]`. |
| Regime.Intersect | scripts/volatility_regime_diagnostic.py:35 | `index.intersection(keys)`: exactly the dates in both, no more of them than the index has. |
| Regime.IntersectSorted | scripts/volatility_regime_diagnostic.py:35 | A sorted volatility index gives sorted common dates. |
| Regime.HighVol | scripts/volatility_regime_diagnostic.py:38 | The label is 0 or 1, and 1 exactly when the volatility is strictly above the threshold. |
| Regime.LabelRegimes | scripts/volatility_regime_diagnostic.py:32-43 | Indexing the table by `date` fails exactly when there is no common date. Otherwise there is one record per common date, in order, holding that date's volatility; the label is 1 exactly when it exceeds the threshold and 0 exactly when it does not. |
| Regime.AppendRun | scripts/volatility_regime_diagnostic.py:106-109 | Closing a maximal stretch after the last run keeps the runs well formed. |
| Regime.ScanOpen | scripts/volatility_regime_diagnostic.py:104-105 | A high row outside a run opens one there. |
| Regime.ScanClose | scripts/volatility_regime_diagnostic.py:106-109 | A low row inside a run closes it at that row. Afterwards no run is open, and every high row read so far is covered. |
| Regime.ScanStay | scripts/volatility_regime_diagnostic.py:103-109 | A row that agrees with the state leaves it as it is. |
| Regime.ScanFinish | scripts/volatility_regime_diagnostic.py:111-114 | At the end the closed runs, plus the open run closed at the end, are exactly the maximal runs. |
| Regime.SpansAppend | scripts/volatility_regime_diagnostic.py:107-113 | Appending a run appends its span. |
| Regime.ShadeOpen | scripts/volatility_regime_diagnostic.py:104-105 | `start` becomes the date of the row that opens a run. |
| Regime.ShadeClose | scripts/volatility_regime_diagnostic.py:106-109 | Closing a run emits the span from `start` to this row's date and resets `start` to `None`. |
| Regime.ShadeStay | scripts/volatility_regime_diagnostic.py:103-109 | Rows that agree with `start` change nothing. |
| Regime.ShadeFinish | scripts/volatility_regime_diagnostic.py:111-114 | A run still open at the end yields one span ending at the last date. |
| Regime.HighVolSpans | scripts/volatility_regime_diagnostic.py:100-114 | The spans the loop emits are exactly those of the maximal runs of high rows, in order: `start` is set at a run's first row and reset at the next low row. |
| Regime.SpansOrdered | scripts/volatility_regime_diagnostic.py:102-114 | Over a sorted index each span ends no earlier than it starts and strictly before the next one starts. |
| Regime.RunIsShared | scripts/volatility_regime_diagnostic.py:102-114 | A run of one maximal decomposition is a run of any other. |
| Regime.SameRunsSameList | scripts/volatility_regime_diagnostic.py:102-114 | Two ordered run lists with the same members are equal. |
| Regime.MaximalRunsUnique | scripts/volatility_regime_diagnostic.py:102-114 | The maximal runs of a label sequence are unique, so the spans and their number are determined by the labels. |
| Loaders.FlattenLabel | src/spy_volatility/data/loaders.py:16-17 | A flattened label contains no space. |
| Loaders.FlattenIdempotent | src/spy_volatility/data/loaders.py:16-18 | Flattening a flattened label changes nothing. |
| Loaders.FlattenPlainName | src/spy_volatility/data/loaders.py:17 | A plain label without spaces is kept as it is. |
| Loaders.FlattenLevelsSplit | src/spy_volatility/data/loaders.py:16 | Levels free of spaces and `_` are recovered by splitting the flat label at `_`. |
| Loaders.PriceFrame.constructor | src/spy_volatility/data/loaders.py:12 | The frame holds the given labels and rows. |
| Loaders.PriceFrame.FlattenColumns | src/spy_volatility/data/loaders.py:12-19 | `df.columns = ...`: the same number of labels in the same order, each the flat form of the old one, none with a space; the rows are unchanged. |
| Loaders.AsMapKeys | src/spy_volatility/data/loaders.py:120-121 | The date-keyed table of rows has exactly the rows' dates. |
| Loaders.AsMapConcat | src/spy_volatility/data/loaders.py:120 | The table of a concatenation is the union of the tables, the later one winning. |
| Loaders.KeepLast | src/spy_volatility/data/loaders.py:121 | `duplicated(keep="last")` leaves distinct dates, all taken from the input. |
| Loaders.KeepLastSameMap | src/spy_volatility/data/loaders.py:121 | Dropping the earlier duplicates keeps the table, later rows winning. |
| Loaders.KeepLastDistinct | src/spy_volatility/data/loaders.py:121 | Rows with distinct dates survive unchanged. |
| Loaders.InsertByDate | src/spy_volatility/data/loaders.py:122 | Inserting into sorted rows gives sorted rows holding the same rows plus the new one. |
| Loaders.InsertDistinct | src/spy_volatility/data/loaders.py:122 | Inserting a row with a new date keeps the dates distinct. |
| Loaders.InsertSameMap | src/spy_volatility/data/loaders.py:122 | Inserting a row with a new date adds exactly its entry to the table. |
| Loaders.SortByDate | src/spy_volatility/data/loaders.py:93-122 | `sort_index()`: sorted by date, and the same multiset of rows. |
| Loaders.SortDistinct | src/spy_volatility/data/loaders.py:122 | Sorting keeps the dates distinct. |
| Loaders.SortSameMap | src/spy_volatility/data/loaders.py:122 | Sorting rows with distinct dates keeps the table. |
| Loaders.SortSorted | src/spy_volatility/data/loaders.py:122 | Sorting rows in strictly increasing date order changes nothing. |
| Loaders.MergeTable | src/spy_volatility/data/loaders.py:120-122 | The merged table is the cached table overridden by the downloaded one: every date of either side, the downloaded row for a shared date. |
| Loaders.MergeSorted | src/spy_volatility/data/loaders.py:120-122 | The merged rows have strictly increasing dates: sorted, with no date twice. |
| Loaders.MaxDate | src/spy_volatility/data/loaders.py:95 | `index.max()`: no cached date is larger, and some cached date equals it. |
| Loaders.NextStart | src/spy_volatility/data/loaders.py:95-104 | The download restarts one day after the latest cached date, strictly after every cached date; an empty cache has no start. |
| Loaders.Update | src/spy_volatility/data/loaders.py:92-122 | The new cache is sorted by date, and for an empty download it holds exactly the cached rows. |
| Loaders.UpdateTable | src/spy_volatility/data/loaders.py:113-122 | Over a cache without repeated dates, the new cache's table is the cached table overridden by the downloaded one. |
| Loaders.UpdateIncreasing | src/spy_volatility/data/loaders.py:113-122 | Over a cache without repeated dates, the new cache has strictly increasing dates. |
| Loaders.AppendIncreasing | src/spy_volatility/data/loaders.py:120 | A sorted cache followed by a sorted download dated after it is strictly increasing. |
| Loaders.UpdateAppends | src/spy_volatility/data/loaders.py:104-122 | A sorted download starting at or after the next start date only appends to a sorted cache. |
| Strings.Split | src/spy_volatility/data/features.py:13 | `str.split(sep)`: at least one field, none containing the separator. |
| Strings.SplitJoin | scripts/walkforward_var.py:107-108 | Splitting the join of separator-free fields gives the fields back. |
| Strings.Replace | src/spy_volatility/data/loaders.py:16-17 | `str.replace` of one character: same length, each occurrence replaced, none left. |
| Strings.SortNames | src/spy_volatility/data/features.py:19 | Distinct labels sorted ascending, as a permutation. |

## Left out

- `norm.ppf`, `t.ppf`, `np.log`, `np.sqrt` and `chi2.cdf` are floating-point library numerics. They are function parameters with no properties assumed beyond those a lemma states in its `requires`. `LR >= 0` and p-value calibration need real analysis and are not stated.
- Floating point in general: prices, returns, volatilities and thresholds are exact reals, and `x / T` is exact real division.
- `fit_garch_11`, the GARCH optimiser: the GARCH volatility is an input series.
- `fit_var_1` in `var.py` wraps statsmodels and calls a helper that is not part of this model.
- Rolling covariance, eigenvalue and condition-number diagnostics, the Cholesky and jitter helpers, and the diagnostic loop that uses them: the covariance estimates enter only as their set of dates.
- `quantile(0.70)`: the regime threshold is a parameter. The `rolling(63)` clustering series and all plotting, table formatting and `savefig` calls are out.
- The Yahoo Finance download, CSV reading and writing, directory creation, configuration and the `today()` clock are out; the update step takes the cached and downloaded rows as parameters. `_download_spy_prices` assigns `spy` but tests and returns `df`, so it cannot run as written. It is not part of this model.
- The `spy_new.empty` branch (`src/spy_volatility/data/loaders.py:115-117`) stays dead even with a working download helper, because the helper raises `RuntimeError` on an empty download (`src/spy_volatility/data/loaders.py:56-57`). The model includes the branch anyway: an empty download returns the sorted cache.
- Loaders.Update: an empty cache has no `last_date`. The source would then compute a start date from `NaT`; the model gives `NextStart` no value and merges as usual.
- Loaders.UpdateTable: requires a cache without repeated dates. The cache is written by this step, after duplicates are dropped, and by the first full download (`src/spy_volatility/data/loaders.py:85-86`), which is written without de-duplication; that first download is assumed to have distinct dates. The sort of a cache that does repeat a date is not stable in pandas, so the table it shows is not determined.
- Loaders.Merge: rows are positional lists of fields, while `pd.concat` aligns columns by label (their union, with NaN filling the gaps). The model assumes the cache and the download carry the same labels in the same order, as they do when both come through `_flatten_columns` from the same download layout.
- Loaders.SortByDate: a stable insertion sort stands in for `sort_index`. The two agree whenever the dates are distinct, which is the case after `duplicated(keep="last")`.
- Features.RealizedVariance: requires `window >= 1`. Every caller passes 21 or 252.
- WalkForward.Backtest: requires a returns index without repeated dates, so that `get_loc` returns a position. The regime and no-look-ahead lemmas require sorted indexes, as produced by the sorted, de-duplicated cache.
- WalkForward.Backtest: the `SPY_Log_Return` column copied into `var_results` is not carried. The eight `.loc` writes of one iteration are a single update of one row.
- WalkForward.Backtest: the script calls `compute_returns(prices, price_col=prices.columns)`. Every price column then derives its own returns, and a later label with the same ticker overwrites an earlier one. The model takes the resulting `SPY_Log_Return` series as an input.
- Regime.LabelRegimes: the common dates follow the order of the volatility index. The pandas `intersection` result is in that order when the index is sorted (see `Regime.IntersectSorted`).
- Regime.LabelRegimes: the records stand for the table `regime_df`; its `date` index is the records' `date` field.
- Regime.HighVolSpans: the model emits the spans instead of drawing them on two axes.

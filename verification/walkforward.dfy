/**
 * The walk-forward VaR backtest: for every realized-volatility date but the
 * last, the volatilities known on that date set eight one-day-ahead VaR
 * thresholds (two estimators, two distributions, two levels), and the next
 * day's SPY log return is flagged when it falls below each of them. The
 * exceedance columns are then summarised with their rate and the Kupiec
 * coverage p-value.
 *
 * Series are the ones the script builds after `dropna()`: `spy` is the
 * `SPY_Log_Return` column, `rv` the 252-day realized volatility and `garch`
 * the GARCH(1,1) conditional volatility, all labelled by day numbers.
 */
module WalkForward {
  import opened Base
  import opened Strings
  import opened Var

  datatype Estimator = RV | Garch
  datatype Dist = Gauss | StudentT
  datatype Level = L001 | L005

  /** One exceedance column: estimator, distribution, VaR level. */
  datatype Combo = Combo(est: Estimator, dist: Dist, level: Level)

  /** The eight exceedance columns in the order the script creates and summarises them. */
  const Columns: seq<Combo> := [
    Combo(RV, Gauss, L001), Combo(RV, Gauss, L005),
    Combo(RV, StudentT, L001), Combo(RV, StudentT, L005),
    Combo(Garch, Gauss, L001), Combo(Garch, Gauss, L005),
    Combo(Garch, StudentT, L001), Combo(Garch, StudentT, L005)
  ]

  function EstimatorName(e: Estimator): string
  {
    match e
    case RV => "rv"
    case Garch => "garch"
  }

  function DistName(d: Dist): string
  {
    match d
    case Gauss => "gauss"
    case StudentT => "t"
  }

  function LevelName(l: Level): string
  {
    match l
    case L001 => "001"
    case L005 => "005"
  }

  /** Column label such as `exceed_rv_gauss_001`. */
  function ColumnName(c: Combo): string
  {
    Join(["exceed", EstimatorName(c.est), DistName(c.dist), LevelName(c.level)], '_')
  }

  /** The confidence level handed to the quantile function: 0.99 for the 1% column, 0.95 for the 5% one. */
  function Confidence(l: Level): real
  {
    match l
    case L001 => 0.99
    case L005 => 0.95
  }

  /** Degrees of freedom of the Student-t thresholds. */
  const Nu: real := 8.0

  /** The VaR threshold of column `c` for volatility `sigma`, with zero mean. */
  function Threshold(c: Combo, sigma: real, normPpf: real -> real, tPpf: (real, real) -> real): real
  {
    match c.dist
    case Gauss => GaussianVar(0.0, sigma, Confidence(c.level), normPpf)
    case StudentT => StudentTVar(0.0, sigma, Nu, Confidence(c.level), tPpf)
  }

  /** `int(future_return < threshold)`. */
  function Exceeds(ret: real, threshold: real): (r: int)
    ensures r == 0 || r == 1
    ensures r == 1 <==> ret < threshold
  {
    if ret < threshold then 1 else 0
  }

  /** `rv252.index[:-1]`: every volatility date but the last. */
  function LoopDates(rv: Series<real>): (ds: seq<int>)
    ensures |ds| == if |rv.index| == 0 then 0 else |rv.index| - 1
    ensures forall i :: 0 <= i < |ds| ==> ds[i] == rv.index[i]
  {
    if |rv.index| == 0 then [] else rv.index[..|rv.index| - 1]
  }

  /** The exceptions one iteration of the loop can raise, in the order it can raise them. */
  datatype BacktestError =
    | MissingDate(date: int)     // `returns.index.get_loc(date)`: KeyError
    | NoNextDay(date: int)       // `returns.index[date_idx]` past the end: IndexError
    | MissingGarch(date: int)    // `garch[date]`: KeyError

  /** The exception the iteration for date `d` raises, if any. */
  function DateError(d: int, spy: Series<real>, garch: Series<real>): (r: Option<BacktestError>)
    ensures r.None? <==> d in spy.index && IndexOf(spy.index, d) + 1 < |spy.index| && d in garch.index
    ensures r == Some(MissingDate(d)) <==> d !in spy.index
    ensures r == Some(NoNextDay(d)) <==> d in spy.index && IndexOf(spy.index, d) + 1 == |spy.index|
    ensures r == Some(MissingGarch(d)) <==> d in spy.index && IndexOf(spy.index, d) + 1 < |spy.index| && d !in garch.index
  {
    if d !in spy.index then Some(MissingDate(d))
    else if IndexOf(spy.index, d) + 1 >= |spy.index| then Some(NoNextDay(d))
    else if d !in garch.index then Some(MissingGarch(d))
    else None
  }

  predicate AllDatesOk(ds: seq<int>, spy: Series<real>, garch: Series<real>)
  {
    forall i :: 0 <= i < |ds| ==> DateError(ds[i], spy, garch).None?
  }

  /** The exception the whole loop raises: that of the first date that fails. */
  function FirstError(ds: seq<int>, spy: Series<real>, garch: Series<real>): (r: Option<BacktestError>)
    ensures r.None? <==> AllDatesOk(ds, spy, garch)
    ensures r.Some? ==> exists i :: 0 <= i < |ds| && AllDatesOk(ds[..i], spy, garch)
                                    && r == DateError(ds[i], spy, garch)
    decreases |ds|
  {
    if ds == [] then None
    else match DateError(ds[0], spy, garch)
      case Some(e) =>
        assert AllDatesOk(ds[..0], spy, garch);
        Some(e)
      case None =>
        var rest := FirstError(ds[1..], spy, garch);
        if rest.Some? then
          var i :| 0 <= i < |ds[1..]| && AllDatesOk(ds[1..][..i], spy, garch)
                   && rest == DateError(ds[1..][i], spy, garch);
          assert ds[..i + 1] == [ds[0]] + ds[1..][..i];
          rest
        else
          assert forall i :: 0 < i < |ds| ==> ds[i] == ds[1..][i - 1];
          rest
  }

  /** The volatility column `c` reads on date `d`: `rv252[date]` or `garch[date]`. */
  function Sigma(e: Estimator, d: int, rv: Series<real>, garch: Series<real>): real
    requires rv.Valid() && garch.Valid()
    requires d in rv.index && d in garch.index
  {
    match e
    case RV => At(rv, d)
    case Garch => At(garch, d)
  }

  /**
   * The value row `j` of column `c` holds once the dates `ds` have been
   * processed: the flag set by the date just before it, when that date is
   * one of `ds`, and the initial 0 otherwise.
   */
  function FlagAfter(c: Combo, j: int, ds: seq<int>, spy: Series<real>, rv: Series<real>, garch: Series<real>,
                     normPpf: real -> real, tPpf: (real, real) -> real): int
    requires spy.Valid() && rv.Valid() && garch.Valid()
    requires 0 <= j < |spy.index|
    requires forall i :: 0 <= i < |ds| ==> ds[i] in rv.index && ds[i] in garch.index
  {
    if 1 <= j && spy.index[j - 1] in ds then
      var d := spy.index[j - 1];
      Exceeds(spy.values[j], Threshold(c, Sigma(c.est, d, rv, garch), normPpf, tPpf))
    else 0
  }

  /** The eight exceedance columns once the dates `ds` have been processed. */
  function FlagsAfter(ds: seq<int>, spy: Series<real>, rv: Series<real>, garch: Series<real>,
                      normPpf: real -> real, tPpf: (real, real) -> real): (r: seq<seq<int>>)
    requires spy.Valid() && rv.Valid() && garch.Valid()
    requires forall i :: 0 <= i < |ds| ==> ds[i] in rv.index && ds[i] in garch.index
    ensures |r| == |Columns| && forall k :: 0 <= k < |r| ==> |r[k]| == |spy.index|
  {
    seq(|Columns|, k requires 0 <= k < |Columns| =>
      seq(|spy.index|, j requires 0 <= j < |spy.index| =>
        FlagAfter(Columns[k], j, ds, spy, rv, garch, normPpf, tPpf)))
  }

  /** What the loop leaves behind: the first exception, or the filled exceedance columns. */
  function Outcome(spy: Series<real>, rv: Series<real>, garch: Series<real>,
                   normPpf: real -> real, tPpf: (real, real) -> real): (r: Result<seq<seq<int>>, BacktestError>)
    requires spy.Valid() && rv.Valid() && garch.Valid()
    ensures r.Success? <==> AllDatesOk(LoopDates(rv), spy, garch)
  {
    var ds := LoopDates(rv);
    match FirstError(ds, spy, garch)
    case Some(e) => Failure(e)
    case None => Success(FlagsAfter(ds, spy, rv, garch, normPpf, tPpf))
  }

  /**
   * The walk-forward loop. The exceedance columns start at 0; the iteration
   * for date `d` finds the next trading day by position and writes its eight
   * flags, each comparing that day's return with the threshold built from
   * the volatilities of `d`.
   */
  method Backtest(spy: Series<real>, rv: Series<real>, garch: Series<real>,
                  normPpf: real -> real, tPpf: (real, real) -> real)
    returns (res: Result<seq<seq<int>>, BacktestError>)
    requires spy.Valid() && rv.Valid() && garch.Valid()
    requires Distinct(spy.index)
    ensures res == Outcome(spy, rv, garch, normPpf, tPpf)
  {
    var n := |spy.index|;
    var flags := seq(|Columns|, k => seq(n, j => 0));
    var ds := LoopDates(rv);
    var i := 0;
    InitialFlags(ds, spy, rv, garch, normPpf, tPpf);
    while i < |ds|
      invariant 0 <= i <= |ds|
      invariant AllDatesOk(ds[..i], spy, garch)
      invariant flags == FlagsAfter(ds[..i], spy, rv, garch, normPpf, tPpf)
    {
      var d := ds[i];
      var e := DateError(d, spy, garch);
      if e.Some? {
        FirstErrorAt(ds, i, spy, garch);
        return Failure(e.value);
      }
      var p := IndexOf(spy.index, d) + 1;
      var futureReturn := spy.values[p];
      var row := seq(|Columns|, k requires 0 <= k < |Columns| =>
        Exceeds(futureReturn, Threshold(Columns[k], Sigma(Columns[k].est, d, rv, garch), normPpf, tPpf)));
      flags := seq(|Columns|, k requires 0 <= k < |Columns| => flags[k][p := row[k]]);
      StepFlags(ds, i, spy, rv, garch, normPpf, tPpf, flags);
      i := i + 1;
    }
    assert ds[..i] == ds;
    res := Success(flags);
  }

  /** Before any date is processed every exceedance column is 0. */
  lemma InitialFlags(ds: seq<int>, spy: Series<real>, rv: Series<real>, garch: Series<real>,
                     normPpf: real -> real, tPpf: (real, real) -> real)
    requires spy.Valid() && rv.Valid() && garch.Valid()
    ensures FlagsAfter(ds[..0], spy, rv, garch, normPpf, tPpf) == seq(|Columns|, k => seq(|spy.index|, j => 0))
  {
    var f := FlagsAfter(ds[..0], spy, rv, garch, normPpf, tPpf);
    forall k | 0 <= k < |Columns|
      ensures f[k] == seq(|spy.index|, j => 0)
    {
    }
  }

  /** The first failing date decides the loop's exception. */
  lemma FirstErrorAt(ds: seq<int>, i: nat, spy: Series<real>, garch: Series<real>)
    requires i < |ds| && AllDatesOk(ds[..i], spy, garch)
    requires DateError(ds[i], spy, garch).Some?
    ensures FirstError(ds, spy, garch) == DateError(ds[i], spy, garch)
  {
    assert !AllDatesOk(ds, spy, garch);
    var m :| 0 <= m < |ds| && AllDatesOk(ds[..m], spy, garch) && FirstError(ds, spy, garch) == DateError(ds[m], spy, garch);
    if m < i {
      PrefixDateOk(ds, i, m, spy, garch);
    } else if m > i {
      PrefixDateOk(ds, m, i, spy, garch);
    }
  }

  lemma PrefixDateOk(ds: seq<int>, n: nat, k: nat, spy: Series<real>, garch: Series<real>)
    requires k < n <= |ds| && AllDatesOk(ds[..n], spy, garch)
    ensures DateError(ds[k], spy, garch).None?
  {
    assert ds[..n][k] == ds[k];
  }

  /** One iteration turns the columns for `ds[..i]` into those for `ds[..i+1]`. */
  lemma StepFlags(ds: seq<int>, i: nat, spy: Series<real>, rv: Series<real>, garch: Series<real>,
                  normPpf: real -> real, tPpf: (real, real) -> real, flags: seq<seq<int>>)
    requires spy.Valid() && rv.Valid() && garch.Valid() && Distinct(spy.index)
    requires i < |ds| && forall k :: 0 <= k < |ds| ==> ds[k] in rv.index
    requires AllDatesOk(ds[..i + 1], spy, garch)
    requires var d := ds[i];
      var p := IndexOf(spy.index, d) + 1;
      var old_ := FlagsAfter(ds[..i], spy, rv, garch, normPpf, tPpf);
      flags == seq(|Columns|, k requires 0 <= k < |Columns| =>
        old_[k][p := Exceeds(spy.values[p], Threshold(Columns[k], Sigma(Columns[k].est, d, rv, garch), normPpf, tPpf))])
    ensures flags == FlagsAfter(ds[..i + 1], spy, rv, garch, normPpf, tPpf)
  {
    assert ds[..i + 1][i] == ds[i];
    var d := ds[i];
    var p := IndexOf(spy.index, d) + 1;
    var prev := FlagsAfter(ds[..i], spy, rv, garch, normPpf, tPpf);
    var next := FlagsAfter(ds[..i + 1], spy, rv, garch, normPpf, tPpf);
    assert ds[..i + 1] == ds[..i] + [d];
    forall k | 0 <= k < |Columns|
      ensures flags[k] == next[k]
    {
      forall j | 0 <= j < |spy.index|
        ensures flags[k][j] == next[k][j]
      {
        if j == p {
          assert spy.index[j - 1] == d;
        } else {
          assert flags[k][j] == prev[k][j];
          if 1 <= j {
            assert spy.index[j - 1] != d;
          }
        }
      }
    }
  }

  /** Every exceedance entry is an indicator. */
  lemma FlagsAreIndicators(spy: Series<real>, rv: Series<real>, garch: Series<real>,
                           normPpf: real -> real, tPpf: (real, real) -> real, k: int, j: int)
    requires spy.Valid() && rv.Valid() && garch.Valid()
    requires Outcome(spy, rv, garch, normPpf, tPpf).Success?
    requires 0 <= k < |Columns| && 0 <= j < |spy.index|
    ensures var f := Outcome(spy, rv, garch, normPpf, tPpf).value[k][j];
      f == 0 || f == 1
  {
  }

  /**
   * No look-ahead: the flag of row `j` depends on volatilities only through
   * dates strictly before `spy.index[j]`, so changing any later volatility
   * leaves it alone.
   */
  lemma NoLookAhead(spy: Series<real>, rv1: Series<real>, garch1: Series<real>,
                    rv2: Series<real>, garch2: Series<real>,
                    normPpf: real -> real, tPpf: (real, real) -> real, k: int, j: int)
    requires spy.Valid() && rv1.Valid() && garch1.Valid() && rv2.Valid() && garch2.Valid()
    requires StrictlyIncreasing(spy.index)
    requires rv1.index == rv2.index && garch1.index == garch2.index
    requires Outcome(spy, rv1, garch1, normPpf, tPpf).Success?
    requires 0 <= k < |Columns| && 0 <= j < |spy.index|
    requires forall d :: d in rv1.index && d < spy.index[j] ==> At(rv1, d) == At(rv2, d)
    requires forall d :: d in garch1.index && d < spy.index[j] ==> At(garch1, d) == At(garch2, d)
    ensures Outcome(spy, rv2, garch2, normPpf, tPpf).Success?
    ensures Outcome(spy, rv1, garch1, normPpf, tPpf).value[k][j] == Outcome(spy, rv2, garch2, normPpf, tPpf).value[k][j]
  {
    var ds := LoopDates(rv1);
    assert LoopDates(rv2) == ds;
    assert forall i :: 0 <= i < |ds| ==> DateError(ds[i], spy, garch1) == DateError(ds[i], spy, garch2);
    if 1 <= j {
      assert spy.index[j - 1] < spy.index[j];
    }
  }

  /**
   * Warm-up: with a sorted volatility index, no row up to the first
   * volatility date is ever flagged, since no forecast exists for it.
   */
  lemma WarmUpRowsUnflagged(spy: Series<real>, rv: Series<real>, garch: Series<real>,
                            normPpf: real -> real, tPpf: (real, real) -> real, k: int, j: int)
    requires spy.Valid() && rv.Valid() && garch.Valid()
    requires StrictlyIncreasing(spy.index) && StrictlyIncreasing(rv.index)
    requires Outcome(spy, rv, garch, normPpf, tPpf).Success?
    requires 0 <= k < |Columns| && 0 <= j < |spy.index|
    requires rv.index == [] || spy.index[j] <= rv.index[0]
    ensures Outcome(spy, rv, garch, normPpf, tPpf).value[k][j] == 0
  {
  }

  /**
   * `rv252.index[:-1]`: the last volatility date is not forecast from, so
   * the day after it is never flagged.
   */
  lemma LastDateNotForecast(spy: Series<real>, rv: Series<real>, garch: Series<real>,
                            normPpf: real -> real, tPpf: (real, real) -> real, k: int, j: int)
    requires spy.Valid() && rv.Valid() && garch.Valid() && Distinct(rv.index)
    requires Outcome(spy, rv, garch, normPpf, tPpf).Success?
    requires 0 <= k < |Columns| && 1 <= j < |spy.index|
    requires rv.index != [] && spy.index[j - 1] == rv.index[|rv.index| - 1]
    ensures Outcome(spy, rv, garch, normPpf, tPpf).value[k][j] == 0
  {
  }

  /**
   * With a sorted volatility index contained in the sorted returns index,
   * every loop date has a next trading day: the last volatility date is
   * excluded and lies after each loop date. So, when GARCH covers the
   * volatility dates, the loop raises nothing.
   */
  lemma BacktestSucceeds(spy: Series<real>, rv: Series<real>, garch: Series<real>,
                         normPpf: real -> real, tPpf: (real, real) -> real)
    requires spy.Valid() && rv.Valid() && garch.Valid()
    requires StrictlyIncreasing(spy.index) && StrictlyIncreasing(rv.index)
    requires forall i :: 0 <= i < |rv.index| ==> rv.index[i] in spy.index && rv.index[i] in garch.index
    ensures Outcome(spy, rv, garch, normPpf, tPpf).Success?
  {
    var ds := LoopDates(rv);
    forall i | 0 <= i < |ds|
      ensures DateError(ds[i], spy, garch).None?
    {
      var last := rv.index[|rv.index| - 1];
      var p := IndexOf(spy.index, ds[i]);
      var q := IndexOf(spy.index, last);
      assert ds[i] < last;
      PositionOrder(spy.index, p, q);
    }
  }

  /** The row each loop date writes: the position after it in the returns index. */
  function TargetRows(ds: seq<int>, spy: Series<real>): (r: seq<int>)
    requires forall i :: 0 <= i < |ds| ==> ds[i] in spy.index
    ensures |r| == |ds|
    ensures forall i :: 0 <= i < |ds| ==> 1 <= r[i] <= |spy.index| && spy.index[r[i] - 1] == ds[i]
    ensures Distinct(ds) ==> Distinct(r)
  {
    seq(|ds|, i requires 0 <= i < |ds| => IndexOf(spy.index, ds[i]) + 1)
  }

  /**
   * With distinct volatility dates, a successful backtest writes exactly
   * `|rv.index| - 1` rows of the result, all of them different.
   */
  lemma BacktestWritesDistinctRows(spy: Series<real>, rv: Series<real>, garch: Series<real>,
                                   normPpf: real -> real, tPpf: (real, real) -> real)
    requires spy.Valid() && rv.Valid() && garch.Valid() && Distinct(rv.index)
    requires Outcome(spy, rv, garch, normPpf, tPpf).Success?
    ensures |TargetRows(LoopDates(rv), spy)| == if |rv.index| == 0 then 0 else |rv.index| - 1
    ensures Distinct(TargetRows(LoopDates(rv), spy))
  {
    assert Distinct(LoopDates(rv));
  }

  /**
   * Only the target rows are written: a row that no loop date targets keeps
   * its initial 0 in every column. With distinct volatility dates there are
   * exactly as many target rows as loop dates.
   */
  lemma UnwrittenRowsZero(spy: Series<real>, rv: Series<real>, garch: Series<real>,
                          normPpf: real -> real, tPpf: (real, real) -> real, k: int, j: int)
    requires spy.Valid() && rv.Valid() && garch.Valid() && Distinct(spy.index)
    requires Outcome(spy, rv, garch, normPpf, tPpf).Success?
    requires 0 <= k < |Columns| && 0 <= j < |spy.index|
    requires j !in TargetRows(LoopDates(rv), spy)
    ensures Outcome(spy, rv, garch, normPpf, tPpf).value[k][j] == 0
  {
  }

  /**
   * Nested levels: with non-negative volatilities and a 99% quantile at
   * least the 95% one, a breach of the 1% threshold is also a breach of the
   * 5% threshold of the same estimator and distribution (column `k + 1`).
   */
  lemma NestedLevels(spy: Series<real>, rv: Series<real>, garch: Series<real>,
                     normPpf: real -> real, tPpf: (real, real) -> real, k: int, j: int)
    requires spy.Valid() && rv.Valid() && garch.Valid()
    requires forall i :: 0 <= i < |rv.values| ==> rv.values[i] >= 0.0
    requires forall i :: 0 <= i < |garch.values| ==> garch.values[i] >= 0.0
    requires normPpf(0.99) >= normPpf(0.95) && tPpf(0.99, Nu) >= tPpf(0.95, Nu)
    requires Outcome(spy, rv, garch, normPpf, tPpf).Success?
    requires 0 <= k < |Columns| && Columns[k].level == L001 && 0 <= j < |spy.index|
    ensures k + 1 < |Columns| && Columns[k + 1] == Columns[k].(level := L005)
    ensures var f := Outcome(spy, rv, garch, normPpf, tPpf).value;
      f[k][j] <= f[k + 1][j]
  {
    var ds := LoopDates(rv);
    if 1 <= j && spy.index[j - 1] in ds {
      var d := spy.index[j - 1];
      var c := Columns[k];
      var sigma := Sigma(c.est, d, rv, garch);
      assert sigma >= 0.0;
      if c.dist == Gauss {
        GaussianVarDeeperAtHigherLevel(0.0, sigma, 0.99, 0.95, normPpf);
      } else {
        StudentTVarDeeperAtHigherLevel(0.0, sigma, Nu, 0.99, 0.95, tPpf);
      }
    }
  }

  /** The nominal violation probability of a level: `0.01` or `0.05`. */
  function NominalRate(l: Level): real
  {
    match l
    case L001 => 0.01
    case L005 => 0.05
  }

  /** `series.sum()` of an integer column. */
  function Sum(col: seq<int>): int
  {
    if col == [] then 0 else Sum(col[..|col| - 1]) + col[|col| - 1]
  }

  /** An indicator column sums to a count between 0 and its length. */
  lemma {:induction false} IndicatorSumBounds(col: seq<int>)
    requires forall i :: 0 <= i < |col| ==> col[i] == 0 || col[i] == 1
    ensures 0 <= Sum(col) <= |col|
    decreases |col|
  {
    if col != [] {
      IndicatorSumBounds(col[..|col| - 1]);
    }
  }

  /** One record of the results table. */
  datatype Summary = Summary(model: string, distribution: string, alpha: real, exceedanceRate: real, pValue: real)

  /** What the record for column `c` should hold: its estimator, distribution, level, rate and p-value. */
  function IntendedSummary(c: Combo, col: seq<int>, rows: nat, ln: real -> real, chi2Cdf: real -> real): Summary
    requires rows != 0
  {
    var x := Sum(col);
    Summary(EstimatorName(c.est), DistName(c.dist), NominalRate(c.level), x as real / rows as real,
            Lruc(NominalRate(c.level), x, rows, ln, chi2Cdf).value.pValue)
  }

  lemma ColumnNameFields(c: Combo)
    ensures Split(ColumnName(c), '_') == ["exceed", EstimatorName(c.est), DistName(c.dist), LevelName(c.level)]
  {
    var parts := ["exceed", EstimatorName(c.est), DistName(c.dist), LevelName(c.level)];
    assert forall k :: 0 <= k < |parts| ==> '_' !in parts[k];
    SplitJoin(parts, '_');
  }

  /** The column label ends with its level, so `col.endswith("001")` recovers the level. */
  lemma ColumnNameLevel(c: Combo)
    ensures EndsWith(ColumnName(c), "001") <==> c.level == L001
  {
    var l := LevelName(c.level);
    var parts := ["exceed", EstimatorName(c.est), DistName(c.dist), l];
    assert Join(parts[2..], '_') == parts[2] + ['_'] + l;
    assert Join(parts[1..], '_') == parts[1] + ['_'] + Join(parts[2..], '_');
    var name := ColumnName(c);
    assert name == parts[0] + ['_'] + Join(parts[1..], '_');
    assert name[|name| - 3..] == l;
  }

  /** The eight labels are pairwise different. */
  lemma ColumnNamesDistinct(a: Combo, b: Combo)
    requires ColumnName(a) == ColumnName(b)
    ensures a == b
  {
    ColumnNameFields(a);
    ColumnNameFields(b);
  }

  /**
   * The summary loop: for each exceedance column in order, its rate, its
   * count, the nominal rate read back from the label's suffix, the Kupiec
   * p-value, and the model and distribution read back from the label's
   * fields. With no rows `LRuc` divides by zero.
   */
  method Summarize(flags: seq<seq<int>>, rows: nat, ln: real -> real, chi2Cdf: real -> real)
    returns (res: Result<seq<Summary>, CoverageError>)
    requires |flags| == |Columns| && forall k :: 0 <= k < |flags| ==> |flags[k]| == rows
    ensures res.Failure? <==> rows == 0
    ensures res.Success? ==> |res.value| == |Columns|
    ensures res.Success? ==> forall k :: 0 <= k < |Columns| ==>
      res.value[k] == IntendedSummary(Columns[k], flags[k], rows, ln, chi2Cdf)
  {
    var results: seq<Summary> := [];
    for k := 0 to |Columns|
      invariant rows != 0 ==> |results| == k
      invariant rows != 0 ==> forall i :: 0 <= i < k ==>
        results[i] == IntendedSummary(Columns[i], flags[i], rows, ln, chi2Cdf)
    {
      var c := Columns[k];
      var name := ColumnName(c);
      var x := Sum(flags[k]);
      var alpha := if EndsWith(name, "001") then 0.01 else 0.05;
      var test := Lruc(alpha, x, rows, ln, chi2Cdf);
      if test.Failure? {
        return Failure(test.error);
      }
      var rate := x as real / rows as real;
      ColumnNameFields(c);
      ColumnNameLevel(c);
      var fields := Split(name, '_');
      results := results + [Summary(fields[1], fields[2], alpha, rate, test.value.pValue)];
    }
    if rows == 0 {
      return Failure(ZeroDivision);
    }
    res := Success(results);
  }

  /** With indicator columns, every exceedance rate lies in [0, 1]. */
  lemma RatesInUnitInterval(c: Combo, col: seq<int>, ln: real -> real, chi2Cdf: real -> real)
    requires |col| != 0
    requires forall i :: 0 <= i < |col| ==> col[i] == 0 || col[i] == 1
    ensures 0.0 <= IntendedSummary(c, col, |col|, ln, chi2Cdf).exceedanceRate <= 1.0
  {
    IndicatorSumBounds(col);
  }
}

/**
 * The return and realized-volatility feature builder.
 *
 * A price frame is a date index, an ordered list of column labels and the
 * column values; `None` is pandas' NaN. `compute_returns` adds columns to
 * the frame it is given (the `Frame` class, updated in place) and returns a
 * copy whose columns are sorted by label; `compute_realized_volatility` is a
 * pure function of a frame. The natural logarithm and the square root are
 * parameters.
 */
module Features {
  import opened Base
  import opened Strings

  type Column = seq<Option<real>>

  /** A DataFrame as a value: date index, column labels in order, values by label. */
  datatype Table = Table(index: seq<int>, names: seq<string>, cols: map<string, Column>) {
    ghost predicate Valid()
    {
      && Distinct(names)
      && (forall n :: n in cols <==> n in names)
      && (forall n :: n in cols ==> |cols[n]| == |index|)
    }
  }

  /** `frame[name] = col`: replaces an existing column in place or appends a new one. */
  function SetColumn(t: Table, name: string, col: Column): (r: Table)
    ensures r.index == t.index
    ensures name in r.cols && r.cols[name] == col
    ensures forall n :: n != name ==> (n in r.cols <==> n in t.cols)
    ensures forall n :: n != name && n in t.cols ==> r.cols[n] == t.cols[n]
    ensures t.names <= r.names && |r.names| <= |t.names| + 1
    ensures t.Valid() && |col| == |t.index| ==> r.Valid()
  {
    Table(t.index, if name in t.names then t.names else t.names + [name], t.cols[name := col])
  }

  /** A pandas DataFrame that the feature builder mutates. */
  class Frame {
    const index: seq<int>
    var names: seq<string>
    var cols: map<string, Column>

    function View(): Table
      reads this
    {
      Table(index, names, cols)
    }

    constructor (t: Table)
      ensures View() == t
    {
      index := t.index;
      names := t.names;
      cols := t.cols;
    }

    /** `frame[name] = col`. */
    method Assign(name: string, col: Column)
      modifies this
      ensures View() == SetColumn(old(View()), name, col)
    {
      if name !in names {
        names := names + [name];
      }
      cols := cols[name := col];
    }
  }

  /** `price_col` is either one label or a list of labels. */
  datatype PriceColumns = One(name: string) | Many(names: seq<string>)

  function Requested(p: PriceColumns): seq<string>
  {
    match p
    case One(n) => [n]
    case Many(ns) => ns
  }

  /** The ticker of a column label: the text before its first `_`. */
  function Ticker(c: string): (r: string)
    ensures '_' !in r
    ensures |r| <= |c| && r == c[..|r|]
    ensures |r| < |c| ==> c[|r|] == '_'
  {
    SplitHead(c, '_');
    Split(c, '_')[0]
  }

  function LogReturnName(ticker: string): string
  {
    ticker + "_Log_Return"
  }

  function SquaredReturnName(ticker: string): string
  {
    ticker + "_Squared_Return"
  }

  lemma DerivedNamesDiffer(ticker: string)
    ensures LogReturnName(ticker) != SquaredReturnName(ticker)
  {
    assert |LogReturnName(ticker)| != |SquaredReturnName(ticker)|;
  }

  /** `np.log(prices[c])`. */
  function LogPrices(p: Column, ln: real -> real): (r: Column)
    ensures |r| == |p|
    ensures forall i :: 0 <= i < |p| ==> r[i] == (if p[i].Some? then Some(ln(p[i].value)) else None)
  {
    seq(|p|, i requires 0 <= i < |p| => if p[i].Some? then Some(ln(p[i].value)) else None)
  }

  /** `Series.diff()`: undefined on the first row and wherever either operand is. */
  function Diff(s: Column): (r: Column)
    ensures |r| == |s|
    ensures |s| > 0 ==> r[0] == None
    ensures forall i :: 0 < i < |s| ==>
      r[i] == (if s[i].Some? && s[i - 1].Some? then Some(s[i].value - s[i - 1].value) else None)
  {
    seq(|s|, i requires 0 <= i < |s| =>
      if i > 0 && s[i].Some? && s[i - 1].Some? then Some(s[i].value - s[i - 1].value) else None)
  }

  /** `series ** 2`: NaN stays NaN. */
  function Squared(s: Column): (r: Column)
    ensures |r| == |s|
    ensures forall i :: 0 <= i < |s| ==> (r[i].Some? <==> s[i].Some?)
    ensures forall i :: 0 <= i < |s| && s[i].Some? ==> r[i].value == s[i].value * s[i].value
    ensures forall i :: 0 <= i < |s| && s[i].Some? ==> r[i].value >= 0.0
  {
    seq(|s|, i requires 0 <= i < |s| => if s[i].Some? then Some(s[i].value * s[i].value) else None)
  }

  /**
   * One pass of the loop body of `compute_returns` for column `c`: adds (or
   * overwrites) `<ticker>_Log_Return` and `<ticker>_Squared_Return`.
   */
  function WithReturns(t: Table, c: string, ln: real -> real): (r: Table)
    requires t.Valid() && c in t.cols
    ensures r.Valid() && r.index == t.index
    ensures t.names <= r.names
    ensures var tk := Ticker(c);
      LogReturnName(tk) in r.cols && SquaredReturnName(tk) in r.cols
    ensures forall n :: n != LogReturnName(Ticker(c)) && n != SquaredReturnName(Ticker(c)) ==>
      (n in r.cols <==> n in t.cols) && (n in t.cols ==> r.cols[n] == t.cols[n])
  {
    var tk := Ticker(c);
    DerivedNamesDiffer(tk);
    var logs := LogPrices(t.cols[c], ln);
    var t1 := SetColumn(t, LogReturnName(tk), Diff(logs));
    SetColumn(t1, SquaredReturnName(tk), Squared(Diff(logs)))
  }

  /**
   * `lr` is the log-return column of prices `p`: undefined on the first row,
   * otherwise the difference of consecutive log prices where both exist.
   */
  ghost predicate LogReturnsOf(p: Column, lr: Column, ln: real -> real)
  {
    && |lr| == |p|
    && (|p| > 0 ==> lr[0] == None)
    && (forall i :: 0 < i < |p| && p[i].Some? && p[i - 1].Some? ==>
          lr[i] == Some(ln(p[i].value) - ln(p[i - 1].value)))
    && (forall i :: 0 < i < |p| && (p[i].None? || p[i - 1].None?) ==> lr[i] == None)
  }

  /** `sq` is defined exactly where `lr` is, and there equals its square (so is never negative). */
  ghost predicate SquaresOf(lr: Column, sq: Column)
  {
    && |sq| == |lr|
    && (forall i :: 0 <= i < |lr| ==> (sq[i].Some? <==> lr[i].Some?))
    && (forall i :: 0 <= i < |lr| && lr[i].Some? ==> sq[i].value == lr[i].value * lr[i].value)
    && (forall i :: 0 <= i < |lr| && lr[i].Some? ==> sq[i].value >= 0.0)
  }

  lemma ReturnColumns(p: Column, ln: real -> real)
    ensures LogReturnsOf(p, Diff(LogPrices(p, ln)), ln)
    ensures SquaresOf(Diff(LogPrices(p, ln)), Squared(Diff(LogPrices(p, ln))))
  {
    var logs := LogPrices(p, ln);
    var d := Diff(logs);
    assert forall i :: 0 <= i < |p| ==> (logs[i].Some? <==> p[i].Some?);
    forall i | 0 < i < |p| && p[i].Some? && p[i - 1].Some?
      ensures d[i] == Some(ln(p[i].value) - ln(p[i - 1].value))
    {
      assert logs[i] == Some(ln(p[i].value)) && logs[i - 1] == Some(ln(p[i - 1].value));
    }
    var sq := Squared(d);
    assert SquaresOf(d, sq);
  }

  /**
   * Row by row: the log return is the difference of consecutive log prices,
   * undefined on the first row, and the squared return is its square.
   */
  lemma ReturnRows(t: Table, c: string, ln: real -> real)
    requires t.Valid() && c in t.cols
    ensures LogReturnsOf(t.cols[c], WithReturns(t, c, ln).cols[LogReturnName(Ticker(c))], ln)
    ensures SquaresOf(WithReturns(t, c, ln).cols[LogReturnName(Ticker(c))],
                      WithReturns(t, c, ln).cols[SquaredReturnName(Ticker(c))])
  {
    var tk := Ticker(c);
    DerivedNamesDiffer(tk);
    var d := Diff(LogPrices(t.cols[c], ln));
    var r := WithReturns(t, c, ln);
    assert r == SetColumn(SetColumn(t, LogReturnName(tk), d), SquaredReturnName(tk), Squared(d));
    assert r.cols[LogReturnName(tk)] == d;
    assert r.cols[SquaredReturnName(tk)] == Squared(d);
    ReturnColumns(t.cols[c], ln);
  }

  /** The state of the frame after the loop of `compute_returns`, and the label it stopped at. */
  datatype Progress = Progress(table: Table, missing: Option<string>)

  function AddReturns(t: Table, cs: seq<string>, ln: real -> real): (r: Progress)
    requires t.Valid()
    ensures r.table.Valid() && r.table.index == t.index
    ensures t.names <= r.table.names
    ensures r.missing.Some? ==> r.missing.value in cs && r.missing.value !in r.table.cols
    decreases |cs|
  {
    if cs == [] then Progress(t, None)
    else if cs[0] !in t.cols then Progress(t, Some(cs[0]))
    else AddReturns(WithReturns(t, cs[0], ln), cs[1..], ln)
  }

  /** A label that is no requested column's derived label. */
  ghost predicate Untouched(n: string, cs: seq<string>)
  {
    forall k :: 0 <= k < |cs| ==> n != LogReturnName(Ticker(cs[k])) && n != SquaredReturnName(Ticker(cs[k]))
  }

  /** Columns other than the derived ones keep their values, whether or not the loop completed. */
  lemma {:induction false} AddReturnsKeepsOtherColumns(t: Table, cs: seq<string>, ln: real -> real, n: string)
    requires t.Valid() && Untouched(n, cs)
    ensures var r := AddReturns(t, cs, ln).table;
      (n in r.cols <==> n in t.cols) && (n in t.cols ==> r.cols[n] == t.cols[n])
    decreases |cs|
  {
    if cs != [] && cs[0] in t.cols {
      assert Untouched(n, cs[1..]) by {
        forall k | 0 <= k < |cs[1..]|
          ensures n != LogReturnName(Ticker(cs[1..][k])) && n != SquaredReturnName(Ticker(cs[1..][k]))
        {
          assert cs[1..][k] == cs[k + 1];
        }
      }
      AddReturnsKeepsOtherColumns(WithReturns(t, cs[0], ln), cs[1..], ln, n);
    }
  }

  /** When every requested label exists, every ticker gets both derived columns. */
  lemma {:induction false} AddReturnsAddsDerivedColumns(t: Table, cs: seq<string>, ln: real -> real)
    requires t.Valid()
    requires AddReturns(t, cs, ln).missing.None?
    ensures forall k :: 0 <= k < |cs| ==>
      LogReturnName(Ticker(cs[k])) in AddReturns(t, cs, ln).table.cols &&
      SquaredReturnName(Ticker(cs[k])) in AddReturns(t, cs, ln).table.cols
    decreases |cs|
  {
    if cs != [] {
      var t1 := WithReturns(t, cs[0], ln);
      var r := AddReturns(t1, cs[1..], ln).table;
      assert AddReturns(t, cs, ln).table == r;
      AddReturnsAddsDerivedColumns(t1, cs[1..], ln);
      var lname, sname := LogReturnName(Ticker(cs[0])), SquaredReturnName(Ticker(cs[0]));
      assert lname in t1.cols.Keys && sname in t1.cols.Keys;
      AddReturnsGrowsColumns(t1, cs[1..], ln);
      assert lname in r.cols && sname in r.cols;
      forall k | 1 <= k < |cs|
        ensures LogReturnName(Ticker(cs[k])) in r.cols && SquaredReturnName(Ticker(cs[k])) in r.cols
      {
        assert cs[k] == cs[1..][k - 1];
      }
    }
  }

  /** The loop only ever adds columns. */
  lemma {:induction false} AddReturnsGrowsColumns(t: Table, cs: seq<string>, ln: real -> real)
    requires t.Valid()
    ensures t.cols.Keys <= AddReturns(t, cs, ln).table.cols.Keys
    decreases |cs|
  {
    if cs != [] && cs[0] in t.cols {
      AddReturnsGrowsColumns(WithReturns(t, cs[0], ln), cs[1..], ln);
    }
  }

  /** `prices.sort_index(axis=1)`: the same columns, labels in ascending order. */
  function SortColumns(t: Table): (r: Table)
    requires t.Valid()
    ensures r.Valid()
    ensures r.index == t.index && r.cols == t.cols
    ensures SortedNames(r.names) && multiset(r.names) == multiset(t.names)
  {
    var names := SortNames(t.names);
    assert forall n :: n in names <==> n in t.names by {
      forall n ensures n in names <==> n in t.names {
        assert n in names <==> n in multiset(names);
        assert n in t.names <==> n in multiset(t.names);
      }
    }
    SortedNamesDistinct(names);
    Table(t.index, names, t.cols)
  }

  lemma SortedNamesDistinct(s: seq<string>)
    requires SortedNames(s)
    ensures Distinct(s)
  {
    forall i, j | 0 <= i < j < |s| ensures s[i] != s[j] {
      LessChain(s, i, j);
      if s[i] == s[j] {
        LessIrreflexive(s[i]);
      }
    }
  }

  lemma {:induction false} LessChain(s: seq<string>, i: nat, j: nat)
    requires SortedNames(s) && i < j < |s|
    ensures Less(s[i], s[j])
    decreases j - i
  {
    if i + 1 < j {
      LessChain(s, i + 1, j);
      LessTransitive(s[i], s[i + 1], s[j]);
    }
  }

  lemma {:induction false} LessTransitive(a: string, b: string, c: string)
    requires Less(a, b) && Less(b, c)
    ensures Less(a, c)
    decreases |a|
  {
    if a != [] && a[0] == b[0] && b[0] == c[0] {
      LessTransitive(a[1..], b[1..], c[1..]);
    }
  }

  /** Failures of the feature builder: pandas' `KeyError` and `IndexError`. */
  datatype FeatureError = KeyError(column: string) | NoColumns

  /** One iteration of `compute_returns`: the two in-place column assignments for label `c`. */
  method AddDerivedColumns(prices: Frame, c: string, ln: real -> real)
    requires prices.View().Valid() && c in prices.View().cols
    modifies prices
    ensures prices.View() == WithReturns(old(prices.View()), c, ln)
  {
    var tk := Ticker(c);
    var logReturns := Diff(LogPrices(prices.cols[c], ln));
    prices.Assign(LogReturnName(tk), logReturns);
    prices.Assign(SquaredReturnName(tk), Squared(logReturns));
  }

  /**
   * `compute_returns(prices, price_col)`: adds the derived columns to
   * `prices` in place, one requested label at a time, and returns a copy with
   * sorted labels. A missing label raises `KeyError` after the earlier labels'
   * columns have already been added.
   */
  method ComputeReturns(prices: Frame, priceCol: PriceColumns, ln: real -> real)
    returns (res: Result<Table, FeatureError>)
    requires prices.View().Valid()
    modifies prices
    ensures var p := AddReturns(old(prices.View()), Requested(priceCol), ln);
      && prices.View() == p.table
      && res == (if p.missing.Some? then Failure(KeyError(p.missing.value)) else Success(SortColumns(p.table)))
  {
    var cs := Requested(priceCol);
    ghost var start := prices.View();
    var i := 0;
    while i < |cs|
      invariant 0 <= i <= |cs|
      invariant prices.View().Valid()
      invariant AddReturns(prices.View(), cs[i..], ln) == AddReturns(start, cs, ln)
    {
      var c := cs[i];
      if c !in prices.cols {
        assert AddReturns(prices.View(), cs[i..], ln) == Progress(prices.View(), Some(c));
        return Failure(KeyError(c));
      }
      AddDerivedColumns(prices, c, ln);
      assert cs[i..][1..] == cs[i + 1..];
      i := i + 1;
    }
    assert AddReturns(prices.View(), cs[i..], ln) == Progress(prices.View(), None);
    res := Success(SortColumns(prices.View()));
  }

  predicate AllDefined(s: Column)
  {
    forall i :: 0 <= i < |s| ==> s[i].Some?
  }

  /** Sum of the defined values of a window. */
  function WindowSum(s: Column): real
  {
    if s == [] then 0.0
    else WindowSum(s[..|s| - 1]) + (if s[|s| - 1].Some? then s[|s| - 1].value else 0.0)
  }

  /**
   * `s.rolling(w).mean()`: row `i` is the mean of rows `i-w+1..i`, defined
   * only when all `w` of them exist and are defined.
   */
  function RollingMean(s: Column, w: nat): (r: Column)
    requires w >= 1
    ensures |r| == |s|
    ensures forall i :: 0 <= i < |s| ==> (r[i].Some? <==> i + 1 >= w && AllDefined(s[i + 1 - w..i + 1]))
    ensures forall i :: 0 <= i < |s| && i + 1 >= w && AllDefined(s[i + 1 - w..i + 1]) ==>
      r[i].value == WindowSum(s[i + 1 - w..i + 1]) / w as real
  {
    seq(|s|, i requires 0 <= i < |s| =>
      if i + 1 >= w && AllDefined(s[i + 1 - w..i + 1]) then Some(WindowSum(s[i + 1 - w..i + 1]) / w as real)
      else None)
  }

  /** Scales every defined value. */
  function Scale(k: real, s: Column): (r: Column)
    ensures |r| == |s|
    ensures forall i :: 0 <= i < |s| ==> (r[i].Some? <==> s[i].Some?)
    ensures forall i :: 0 <= i < |s| && s[i].Some? ==> r[i].value == k * s[i].value
  {
    seq(|s|, i requires 0 <= i < |s| => if s[i].Some? then Some(k * s[i].value) else None)
  }

  /**
   * `annualization * returns[ticker + "_Squared_Return"].rolling(window).mean()`,
   * the realized variance, with the guards of `compute_realized_volatility`:
   * the ticker comes from the last column label, and a missing derived column
   * raises `KeyError` (the log-return column is checked first).
   */
  function RealizedVariance(t: Table, window: nat, annualization: real): (r: Result<Series<Option<real>>, FeatureError>)
    requires t.Valid() && window >= 1
    ensures t.names == [] ==> r == Failure(NoColumns)
    ensures t.names != [] ==>
      var tk := Ticker(t.names[|t.names| - 1]);
      && (LogReturnName(tk) !in t.cols ==> r == Failure(KeyError(LogReturnName(tk))))
      && (LogReturnName(tk) in t.cols && SquaredReturnName(tk) !in t.cols ==>
            r == Failure(KeyError(SquaredReturnName(tk))))
      && (LogReturnName(tk) in t.cols && SquaredReturnName(tk) in t.cols ==> r.Success?)
    ensures r.Success? ==> r.value.Valid() && r.value.index == t.index
    ensures r.Success? ==> forall i :: 0 <= i < |t.index| && i + 1 < window ==> r.value.values[i].None?
  {
    if t.names == [] then Failure(NoColumns)
    else
      var tk := Ticker(t.names[|t.names| - 1]);
      if LogReturnName(tk) !in t.cols then Failure(KeyError(LogReturnName(tk)))
      else if SquaredReturnName(tk) !in t.cols then Failure(KeyError(SquaredReturnName(tk)))
      else Success(Series(t.index, Scale(annualization, RollingMean(t.cols[SquaredReturnName(tk)], window))))
  }

  /** `compute_realized_volatility`: the square root of the realized variance. */
  function RealizedVolatility(t: Table, window: nat, annualization: real, sqrt: real -> real)
    : (r: Result<Series<Option<real>>, FeatureError>)
    requires t.Valid() && window >= 1
    ensures r.Success? <==> RealizedVariance(t, window, annualization).Success?
    ensures r.Failure? ==> r.error == RealizedVariance(t, window, annualization).error
    ensures r.Success? ==> var v := RealizedVariance(t, window, annualization).value;
      && r.value.index == v.index && |r.value.values| == |v.values|
      && forall i :: 0 <= i < |v.values| ==>
           r.value.values[i] == (if v.values[i].Some? then Some(sqrt(v.values[i].value)) else None)
  {
    match RealizedVariance(t, window, annualization)
    case Failure(e) => Failure(e)
    case Success(v) =>
      Success(Series(v.index, seq(|v.values|, i requires 0 <= i < |v.values| =>
        if v.values[i].Some? then Some(sqrt(v.values[i].value)) else None)))
  }

  lemma {:induction false} WindowSumNonNegative(s: Column)
    requires forall i :: 0 <= i < |s| && s[i].Some? ==> s[i].value >= 0.0
    ensures WindowSum(s) >= 0.0
    decreases |s|
  {
    if s != [] {
      WindowSumNonNegative(s[..|s| - 1]);
    }
  }

  /** Over non-negative squared returns and a non-negative factor, realized variance is never negative. */
  lemma RealizedVarianceNonNegative(t: Table, window: nat, annualization: real)
    requires t.Valid() && window >= 1 && annualization >= 0.0
    requires RealizedVariance(t, window, annualization).Success?
    requires var sq := t.cols[SquaredReturnName(Ticker(t.names[|t.names| - 1]))];
      forall i :: 0 <= i < |sq| && sq[i].Some? ==> sq[i].value >= 0.0
    ensures var v := RealizedVariance(t, window, annualization).value.values;
      forall i :: 0 <= i < |v| && v[i].Some? ==> v[i].value >= 0.0
  {
    var sq := t.cols[SquaredReturnName(Ticker(t.names[|t.names| - 1]))];
    var m := RollingMean(sq, window);
    var v := RealizedVariance(t, window, annualization).value.values;
    assert v == Scale(annualization, m);
    forall i | 0 <= i < |v| && v[i].Some?
      ensures v[i].value >= 0.0
    {
      var w := sq[i + 1 - window..i + 1];
      WindowSumNonNegative(w);
      assert m[i].value == WindowSum(w) / window as real;
      assert m[i].value >= 0.0;
      assert v[i].value == annualization * m[i].value;
    }
  }

  /** Realized variance is linear in the annualization factor. */
  lemma RealizedVarianceLinear(t: Table, window: nat, annualization: real, k: real)
    requires t.Valid() && window >= 1
    requires RealizedVariance(t, window, annualization).Success?
    ensures var v := RealizedVariance(t, window, annualization).value.values;
      var u := RealizedVariance(t, window, k * annualization).value.values;
      |u| == |v| && forall i :: 0 <= i < |v| ==>
        (u[i].Some? <==> v[i].Some?) && (v[i].Some? ==> u[i].value == k * v[i].value)
  {
  }

  /** The squared-return column that `compute_returns` writes is never negative. */
  lemma SquaredReturnsNonNegative(t: Table, c: string, ln: real -> real)
    requires t.Valid() && c in t.cols
    ensures var sq := WithReturns(t, c, ln).cols[SquaredReturnName(Ticker(c))];
      forall i :: 0 <= i < |sq| && sq[i].Some? ==> sq[i].value >= 0.0
  {
    ReturnRows(t, c, ln);
  }
}

/**
 * The volatility-regime diagnostic: each date that has both a 21-day
 * realized volatility and a covariance estimate is labelled high-volatility
 * when its volatility is strictly above one threshold, and the maximal runs
 * of high-volatility rows become shaded date spans.
 *
 * The threshold (the 70% quantile of the volatility series) is a parameter,
 * and the covariance estimates enter only through the set of their dates.
 */
module Regime {
  import opened Base

  /**
   * `rv.index.intersection(keys)`: the labels of `s` that are keys, in the
   * order of `s`.
   */
  function Intersect(s: seq<int>, keys: set<int>): (r: seq<int>)
    ensures |r| <= |s|
    ensures forall d :: d in r <==> d in s && d in keys
  {
    if s == [] then []
    else if s[0] in keys then [s[0]] + Intersect(s[1..], keys)
    else Intersect(s[1..], keys)
  }

  /** A sorted index stays sorted once restricted to the keys. */
  lemma {:induction false} IntersectSorted(s: seq<int>, keys: set<int>)
    requires StrictlyIncreasing(s)
    ensures StrictlyIncreasing(Intersect(s, keys))
    decreases |s|
  {
    if s != [] {
      IntersectSorted(s[1..], keys);
      var rest := Intersect(s[1..], keys);
      if s[0] in keys {
        var r := [s[0]] + rest;
        forall i, j | 0 <= i < j < |r|
          ensures r[i] < r[j]
        {
          assert r[j] == rest[j - 1] && rest[j - 1] in s[1..];
          if i == 0 {
            var m :| 0 <= m < |s[1..]| && s[1..][m] == rest[j - 1];
            assert s[0] < s[m + 1];
          }
        }
      }
    }
  }

  /** One record of the regime table. */
  datatype RegimeRow = RegimeRow(date: int, highVol: int, rv21: real)

  /** `int(rv > threshold)`. */
  function HighVol(rv: real, threshold: real): (r: int)
    ensures r == 0 || r == 1
    ensures r == 1 <==> rv > threshold
  {
    if rv > threshold then 1 else 0
  }

  /**
   * Building the table from no records gives a frame without a `date`
   * column, and `set_index("date")` raises KeyError.
   */
  datatype RegimeError = NoDateColumn

  /**
   * The labelling loop and the table built from it: one record per date
   * common to the volatility series and the covariance estimates, in the
   * order of the volatility index, holding that date's volatility and its
   * high-volatility label. With no common date the table cannot be indexed
   * by date.
   */
  method LabelRegimes(rv: Series<real>, covDates: set<int>, threshold: real)
    returns (res: Result<seq<RegimeRow>, RegimeError>)
    requires rv.Valid()
    ensures res.Failure? <==> Intersect(rv.index, covDates) == []
    ensures res.Success? ==> |res.value| == |Intersect(rv.index, covDates)|
    ensures res.Success? ==> forall i :: 0 <= i < |res.value| ==> res.value[i].date == Intersect(rv.index, covDates)[i]
    ensures res.Success? ==> forall i :: 0 <= i < |res.value| ==> res.value[i].date in rv.index && res.value[i].date in covDates
    ensures res.Success? ==> forall i :: 0 <= i < |res.value| ==> res.value[i].rv21 == At(rv, res.value[i].date)
    ensures res.Success? ==> forall i :: 0 <= i < |res.value| ==> (res.value[i].highVol == 1 <==> res.value[i].rv21 > threshold)
    ensures res.Success? ==> forall i :: 0 <= i < |res.value| ==> (res.value[i].highVol == 0 <==> res.value[i].rv21 <= threshold)
  {
    var dates := Intersect(rv.index, covDates);
    var rows: seq<RegimeRow> := [];
    for i := 0 to |dates|
      invariant |rows| == i
      invariant forall k :: 0 <= k < i ==> rows[k].date == dates[k] && dates[k] in rv.index
      invariant forall k :: 0 <= k < i ==> rows[k].rv21 == At(rv, rows[k].date)
      invariant forall k :: 0 <= k < i ==> rows[k].highVol == HighVol(rows[k].rv21, threshold)
    {
      var d := dates[i];
      assert d in rv.index;
      var v := At(rv, d);
      rows := rows + [RegimeRow(d, HighVol(v, threshold), v)];
    }
    if rows == [] {
      res := Failure(NoDateColumn);
    } else {
      res := Success(rows);
    }
  }

  /** A maximal run of high-volatility rows: positions `first` up to, not including, `stop`. */
  datatype Run = Run(first: nat, stop: nat)

  /** Each run lies inside the labels and is not empty. */
  ghost predicate RunsInBounds(l: seq<int>, runs: seq<Run>)
  {
    forall k :: 0 <= k < |runs| ==> runs[k].first < runs[k].stop <= |l|
  }

  /** Every label inside a run is non-zero. */
  ghost predicate RunsNonZero(l: seq<int>, runs: seq<Run>)
    requires RunsInBounds(l, runs)
  {
    forall k, p :: 0 <= k < |runs| && runs[k].first <= p < runs[k].stop ==> l[p] != 0
  }

  /** Each run is bounded by zeros or the ends. */
  ghost predicate RunsAtEdges(l: seq<int>, runs: seq<Run>)
    requires RunsInBounds(l, runs)
  {
    && (forall k :: 0 <= k < |runs| ==> runs[k].first == 0 || l[runs[k].first - 1] == 0)
    && (forall k :: 0 <= k < |runs| ==> runs[k].stop == |l| || l[runs[k].stop] == 0)
  }

  /** The runs are in order and apart. */
  ghost predicate RunsApart(runs: seq<Run>)
  {
    forall k, m :: 0 <= k < m < |runs| ==> runs[k].stop < runs[m].first
  }

  /** Each run is a stretch of non-zero labels bounded by zeros or the ends, and the runs are in order. */
  ghost predicate WellFormedRuns(l: seq<int>, runs: seq<Run>)
  {
    RunsInBounds(l, runs) && RunsNonZero(l, runs) && RunsAtEdges(l, runs) && RunsApart(runs)
  }

  /** `runs` lists, in order, exactly the maximal stretches of non-zero labels in `l`. */
  ghost predicate IsMaximalRuns(l: seq<int>, runs: seq<Run>)
  {
    && WellFormedRuns(l, runs)
    && (forall p :: 0 <= p < |l| && l[p] != 0 ==> Covered(runs, p))
  }

  ghost predicate Covered(runs: seq<Run>, p: int)
  {
    exists k :: 0 <= k < |runs| && runs[k].first <= p < runs[k].stop
  }

  /**
   * The scan state after reading `l[..i]`: `runs` are the closed maximal
   * runs, `open` says whether a run is in progress, and `first` is where it
   * began. A position read so far that is non-zero lies in a closed run or
   * in the open one.
   */
  ghost predicate Scanned(l: seq<int>, i: nat, open: bool, first: nat, runs: seq<Run>)
  {
    && i <= |l|
    && WellFormedRuns(l, runs)
    && (forall k :: 0 <= k < |runs| ==> runs[k].stop < i)
    && (open <==> i > 0 && l[i - 1] != 0)
    && (open ==> first < i && (first == 0 || l[first - 1] == 0))
    && (open ==> forall p :: first <= p < i ==> l[p] != 0)
    && (open && runs != [] ==> runs[|runs| - 1].stop < first)
    && (forall p :: 0 <= p < i && l[p] != 0 ==> Covered(runs, p) || (open && first <= p))
  }

  lemma AppendInBounds(l: seq<int>, runs: seq<Run>, run: Run)
    requires RunsInBounds(l, runs) && run.first < run.stop <= |l|
    ensures RunsInBounds(l, runs + [run])
  {
    var r := runs + [run];
    assert forall k :: 0 <= k < |runs| ==> r[k] == runs[k];
    assert r[|runs|] == run;
  }

  lemma AppendNonZero(l: seq<int>, runs: seq<Run>, run: Run)
    requires RunsInBounds(l, runs) && RunsNonZero(l, runs) && run.first < run.stop <= |l|
    requires forall p :: run.first <= p < run.stop ==> l[p] != 0
    ensures RunsInBounds(l, runs + [run]) && RunsNonZero(l, runs + [run])
  {
    AppendInBounds(l, runs, run);
    var r := runs + [run];
    forall k, p | 0 <= k < |r| && r[k].first <= p < r[k].stop
      ensures l[p] != 0
    {
      if k < |runs| {
        assert r[k] == runs[k];
      }
    }
  }

  lemma AppendAtEdges(l: seq<int>, runs: seq<Run>, run: Run)
    requires RunsInBounds(l, runs) && RunsAtEdges(l, runs) && run.first < run.stop <= |l|
    requires run.first == 0 || l[run.first - 1] == 0
    requires run.stop == |l| || l[run.stop] == 0
    ensures RunsInBounds(l, runs + [run]) && RunsAtEdges(l, runs + [run])
  {
    AppendInBounds(l, runs, run);
    var r := runs + [run];
    assert forall k :: 0 <= k < |runs| ==> r[k] == runs[k];
    assert r[|runs|] == run;
  }

  lemma AppendApart(runs: seq<Run>, run: Run)
    requires RunsApart(runs) && forall k :: 0 <= k < |runs| ==> runs[k].stop < run.first
    ensures RunsApart(runs + [run])
  {
    var r := runs + [run];
    forall k, m | 0 <= k < m < |r|
      ensures r[k].stop < r[m].first
    {
      assert r[k] == runs[k];
      if m < |runs| {
        assert r[m] == runs[m];
      }
    }
  }

  /** A run ending before the last one's start ends before the new run. */
  lemma BeforeLast(l: seq<int>, runs: seq<Run>, run: Run)
    requires RunsInBounds(l, runs) && RunsApart(runs)
    requires runs != [] ==> runs[|runs| - 1].stop < run.first
    ensures forall k :: 0 <= k < |runs| ==> runs[k].stop < run.first
  {
    forall k | 0 <= k < |runs|
      ensures runs[k].stop < run.first
    {
      var last := |runs| - 1;
      if k < last {
        assert runs[k].stop < runs[last].first;
      }
    }
  }

  /** Closing a maximal stretch after the last run keeps the runs well formed. */
  lemma AppendRun(l: seq<int>, runs: seq<Run>, run: Run)
    requires WellFormedRuns(l, runs)
    requires run.first < run.stop <= |l|
    requires runs != [] ==> runs[|runs| - 1].stop < run.first
    requires forall p :: run.first <= p < run.stop ==> l[p] != 0
    requires run.first == 0 || l[run.first - 1] == 0
    requires run.stop == |l| || l[run.stop] == 0
    ensures WellFormedRuns(l, runs + [run])
  {
    AppendNonZero(l, runs, run);
    AppendAtEdges(l, runs, run);
    BeforeLast(l, runs, run);
    AppendApart(runs, run);
  }

  /** Appending a run keeps every covered position covered and covers the new run. */
  lemma AppendRunCovers(runs: seq<Run>, run: Run, p: int)
    requires Covered(runs, p) || run.first <= p < run.stop
    ensures Covered(runs + [run], p)
  {
    var r := runs + [run];
    if Covered(runs, p) {
      var k :| 0 <= k < |runs| && runs[k].first <= p < runs[k].stop;
      assert r[k] == runs[k];
    } else {
      assert r[|runs|] == run;
    }
  }

  lemma ScanEmpty(l: seq<int>)
    ensures Scanned(l, 0, false, 0, [])
  {
  }

  /** A non-zero label outside a run opens one. */
  lemma ScanOpen(l: seq<int>, i: nat, first: nat, runs: seq<Run>)
    requires i < |l| && Scanned(l, i, false, first, runs) && l[i] != 0
    ensures Scanned(l, i + 1, true, i, runs)
  {
  }

  /** A zero label inside a run closes it at `i`. */
  lemma ScanClose(l: seq<int>, i: nat, first: nat, runs: seq<Run>)
    requires i < |l| && Scanned(l, i, true, first, runs) && l[i] == 0
    ensures Scanned(l, i + 1, false, first, runs + [Run(first, i)])
  {
    var run := Run(first, i);
    AppendRun(l, runs, run);
    forall p | 0 <= p < i + 1 && l[p] != 0
      ensures Covered(runs + [run], p)
    {
      AppendRunCovers(runs, run, p);
    }
  }

  /** A label that agrees with the state leaves it as it is. */
  lemma ScanStay(l: seq<int>, i: nat, open: bool, first: nat, runs: seq<Run>)
    requires i < |l| && Scanned(l, i, open, first, runs) && (open <==> l[i] != 0)
    ensures Scanned(l, i + 1, open, first, runs)
  {
  }

  /** At the end, the closed runs plus the open one (closed at the end) are the maximal runs. */
  lemma ScanFinish(l: seq<int>, open: bool, first: nat, runs: seq<Run>)
    requires Scanned(l, |l|, open, first, runs)
    ensures open ==> IsMaximalRuns(l, runs + [Run(first, |l|)])
    ensures !open ==> IsMaximalRuns(l, runs)
  {
    if open {
      var run := Run(first, |l|);
      AppendRun(l, runs, run);
      forall p | 0 <= p < |l| && l[p] != 0
        ensures Covered(runs + [run], p)
      {
        AppendRunCovers(runs, run, p);
      }
    }
  }

  /**
   * The shaded span of a run: from its first date to the date of the row
   * that ends it, or to the last date when the run reaches the end.
   */
  function SpanOf(dates: seq<int>, r: Run): (int, int)
    requires r.first < r.stop <= |dates|
  {
    (dates[r.first], if r.stop < |dates| then dates[r.stop] else dates[|dates| - 1])
  }

  function SpansOf(dates: seq<int>, runs: seq<Run>): (r: seq<(int, int)>)
    requires forall k :: 0 <= k < |runs| ==> runs[k].first < runs[k].stop <= |dates|
    ensures |r| == |runs|
    ensures forall k :: 0 <= k < |runs| ==> r[k] == SpanOf(dates, runs[k])
  {
    seq(|runs|, k requires 0 <= k < |runs| => SpanOf(dates, runs[k]))
  }

  lemma SpansAppend(dates: seq<int>, runs: seq<Run>, run: Run)
    requires forall k :: 0 <= k < |runs| ==> runs[k].first < runs[k].stop <= |dates|
    requires run.first < run.stop <= |dates|
    ensures forall k :: 0 <= k < |runs + [run]| ==> (runs + [run])[k].first < (runs + [run])[k].stop <= |dates|
    ensures SpansOf(dates, runs + [run]) == SpansOf(dates, runs) + [SpanOf(dates, run)]
  {
    var r := runs + [run];
    assert forall k :: 0 <= k < |r| ==> r[k] == if k < |runs| then runs[k] else run;
  }

  /**
   * The shading loop's state after `i` rows: the scan state, the date
   * `start` of the open run, and the spans of the closed runs.
   */
  ghost predicate Shading(dates: seq<int>, l: seq<int>, i: nat, start: Option<int>, first: nat,
                          runs: seq<Run>, spans: seq<(int, int)>)
  {
    && |dates| == |l|
    && Scanned(l, i, start.Some?, first, runs)
    && (start.Some? ==> first < |dates| && start.value == dates[first])
    && spans == SpansOf(dates, runs)
  }

  lemma ShadeEmpty(dates: seq<int>, l: seq<int>)
    requires |dates| == |l|
    ensures Shading(dates, l, 0, None, 0, [], [])
  {
    ScanEmpty(l);
  }

  lemma ShadeOpen(dates: seq<int>, l: seq<int>, i: nat, first: nat, runs: seq<Run>, spans: seq<(int, int)>)
    requires i < |l| && Shading(dates, l, i, None, first, runs, spans) && l[i] != 0
    ensures Shading(dates, l, i + 1, Some(dates[i]), i, runs, spans)
  {
    ScanOpen(l, i, first, runs);
  }

  lemma ShadeClose(dates: seq<int>, l: seq<int>, i: nat, start: int, first: nat, runs: seq<Run>, spans: seq<(int, int)>)
    requires i < |l| && Shading(dates, l, i, Some(start), first, runs, spans) && l[i] == 0
    ensures Shading(dates, l, i + 1, None, first, runs + [Run(first, i)], spans + [(start, dates[i])])
  {
    ScanClose(l, i, first, runs);
    SpansAppend(dates, runs, Run(first, i));
  }

  lemma ShadeStay(dates: seq<int>, l: seq<int>, i: nat, start: Option<int>, first: nat, runs: seq<Run>, spans: seq<(int, int)>)
    requires i < |l| && Shading(dates, l, i, start, first, runs, spans) && (start.Some? <==> l[i] != 0)
    ensures Shading(dates, l, i + 1, start, first, runs, spans)
  {
    ScanStay(l, i, start.Some?, first, runs);
  }

  lemma ShadeFinish(dates: seq<int>, l: seq<int>, start: Option<int>, first: nat, runs: seq<Run>, spans: seq<(int, int)>)
    requires Shading(dates, l, |l|, start, first, runs, spans)
    ensures start.None? ==> IsMaximalRuns(l, runs) && spans == SpansOf(dates, runs)
    ensures start.Some? ==> IsMaximalRuns(l, runs + [Run(first, |l|)])
    ensures start.Some? ==> spans + [(start.value, dates[|l| - 1])] == SpansOf(dates, runs + [Run(first, |l|)])
  {
    ScanFinish(l, start.Some?, first, runs);
    if start.Some? {
      SpansAppend(dates, runs, Run(first, |l|));
    }
  }

  /**
   * The shading loop: `start` holds the first date of the run being scanned
   * and is empty outside a run; a zero row closes the open run at its date,
   * and a run still open after the last row is closed at the last date.
   */
  method HighVolSpans(dates: seq<int>, inRegime: seq<int>) returns (spans: seq<(int, int)>, ghost runs: seq<Run>)
    requires |dates| == |inRegime|
    ensures IsMaximalRuns(inRegime, runs)
    ensures spans == SpansOf(dates, runs)
  {
    var n := |inRegime|;
    var start: Option<int> := None;
    ghost var first: nat := 0;
    runs := [];
    spans := [];
    ShadeEmpty(dates, inRegime);
    for i := 0 to n
      invariant Shading(dates, inRegime, i, start, first, runs, spans)
    {
      if inRegime[i] != 0 && start.None? {
        ShadeOpen(dates, inRegime, i, first, runs, spans);
        start := Some(dates[i]);
        first := i;
      } else if inRegime[i] == 0 && start.Some? {
        ShadeClose(dates, inRegime, i, start.value, first, runs, spans);
        spans := spans + [(start.value, dates[i])];
        runs := runs + [Run(first, i)];
        start := None;
      } else {
        ShadeStay(dates, inRegime, i, start, first, runs, spans);
      }
    }
    ShadeFinish(dates, inRegime, start, first, runs, spans);
    if start.Some? {
      spans := spans + [(start.value, dates[n - 1])];
      runs := runs + [Run(first, n)];
    }
  }

  /**
   * Over a sorted date index the spans are in order and do not overlap:
   * each ends no earlier than it starts and strictly before the next starts.
   */
  lemma SpansOrdered(dates: seq<int>, l: seq<int>, runs: seq<Run>)
    requires |dates| == |l| && StrictlyIncreasing(dates) && IsMaximalRuns(l, runs)
    ensures var s := SpansOf(dates, runs);
      && (forall k :: 0 <= k < |s| ==> s[k].0 <= s[k].1)
      && (forall k :: 0 < k < |s| ==> s[k - 1].1 < s[k].0)
  {
    var s := SpansOf(dates, runs);
    forall k | 0 < k < |s|
      ensures s[k - 1].1 < s[k].0
    {
      assert runs[k - 1].stop < runs[k].first;
    }
  }

  /** A run of one maximal decomposition is a run of any other. */
  lemma RunIsShared(l: seq<int>, r1: seq<Run>, r2: seq<Run>, k: int)
    requires IsMaximalRuns(l, r1) && IsMaximalRuns(l, r2) && 0 <= k < |r1|
    ensures r1[k] in r2
  {
    var a := r1[k];
    assert l[a.first] != 0;
    var m :| 0 <= m < |r2| && r2[m].first <= a.first < r2[m].stop;
    assert a == r2[m];
  }

  /** Runs listed by strictly increasing first position. */
  predicate OrderedRuns(r: seq<Run>)
  {
    forall k, m :: 0 <= k < m < |r| ==> r[k].first < r[m].first
  }

  /** The first runs of two ordered lists with the same runs coincide. */
  lemma SameRunsSameHead(r1: seq<Run>, r2: seq<Run>)
    requires OrderedRuns(r1) && OrderedRuns(r2) && r1 != [] && r2 != []
    requires r1[0] in r2 && r2[0] in r1
    ensures r1[0] == r2[0]
  {
    var i :| 0 <= i < |r1| && r1[i] == r2[0];
    var j :| 0 <= j < |r2| && r2[j] == r1[0];
    assert r1[0].first <= r2[0].first <= r1[0].first;
  }

  /** Past a shared first run, every later run of one list is a later run of the other. */
  lemma SameRunsTail(r1: seq<Run>, r2: seq<Run>)
    requires OrderedRuns(r1) && OrderedRuns(r2) && r1 != [] && r2 != [] && r1[0] == r2[0]
    requires forall k :: 0 <= k < |r1| ==> r1[k] in r2
    ensures forall k :: 0 <= k < |r1[1..]| ==> r1[1..][k] in r2[1..]
  {
    forall k | 0 <= k < |r1[1..]|
      ensures r1[1..][k] in r2[1..]
    {
      assert r1[k + 1] in r2;
      var m :| 0 <= m < |r2| && r2[m] == r1[k + 1];
      assert r2[1..][m - 1] == r2[m];
    }
  }

  lemma OrderedTail(r: seq<Run>)
    requires OrderedRuns(r) && r != []
    ensures OrderedRuns(r[1..])
  {
  }

  lemma MembersNonEmpty(r1: seq<Run>, r2: seq<Run>)
    requires forall k :: 0 <= k < |r1| ==> r1[k] in r2
    ensures r1 != [] ==> r2 != []
  {
    if r1 != [] {
      assert r1[0] in r2;
    }
  }

  lemma HeadTailEqual(r1: seq<Run>, r2: seq<Run>)
    requires r1 != [] && r2 != [] && r1[0] == r2[0] && r1[1..] == r2[1..]
    ensures r1 == r2
  {
    assert r1 == [r1[0]] + r1[1..];
    assert r2 == [r2[0]] + r2[1..];
  }

  /** Two ordered run lists with the same runs are the same list. */
  lemma {:induction false} SameRunsSameList(r1: seq<Run>, r2: seq<Run>)
    requires OrderedRuns(r1) && OrderedRuns(r2)
    requires forall k :: 0 <= k < |r1| ==> r1[k] in r2
    requires forall k :: 0 <= k < |r2| ==> r2[k] in r1
    ensures r1 == r2
    decreases |r1|
  {
    MembersNonEmpty(r1, r2);
    MembersNonEmpty(r2, r1);
    if r1 != [] {
      assert r1[0] in r2 && r2[0] in r1;
      SameRunsSameHead(r1, r2);
      SameRunsTail(r1, r2);
      SameRunsTail(r2, r1);
      OrderedTail(r1);
      OrderedTail(r2);
      SameRunsSameList(r1[1..], r2[1..]);
      HeadTailEqual(r1, r2);
    }
  }

  /**
   * The maximal runs of a label sequence are unique, so the spans of the
   * shading loop are determined by the labels: one span per maximal run.
   */
  lemma MaximalRunsUnique(l: seq<int>, r1: seq<Run>, r2: seq<Run>)
    requires IsMaximalRuns(l, r1) && IsMaximalRuns(l, r2)
    ensures r1 == r2
  {
    forall k | 0 <= k < |r1|
      ensures r1[k] in r2
    {
      RunIsShared(l, r1, r2, k);
    }
    forall k | 0 <= k < |r2|
      ensures r2[k] in r1
    {
      RunIsShared(l, r2, r1, k);
    }
    SameRunsSameList(r1, r2);
  }
}

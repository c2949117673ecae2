/**
 * The price cache: flattening the column labels of a download, and the
 * update step that appends newly downloaded rows to the cached ones, keeps
 * the newest row for a repeated date and sorts by date.
 *
 * Dates are day numbers, a row is its date and its price fields, and the
 * download itself (and reading and writing the cache file) are left out: the
 * update step takes the cached and downloaded rows as parameters.
 */
module Loaders {
  import opened Base
  import opened Strings

  /** A column label: a plain name, or the tuple of levels of a multi-index. */
  datatype ColumnLabel = Flat(name: string) | Levels(levels: seq<string>)

  /** Spaces become underscores inside every level. */
  function NoSpaces(ls: seq<string>): (r: seq<string>)
    ensures |r| == |ls|
    ensures forall i :: 0 <= i < |ls| ==> r[i] == Replace(ls[i], ' ', '_')
  {
    seq(|ls|, i requires 0 <= i < |ls| => Replace(ls[i], ' ', '_'))
  }

  /** A character in no part, other than the separator, is not in the join. */
  lemma JoinAvoids(parts: seq<string>, sep: char, c: char)
    requires c != sep && forall k :: 0 <= k < |parts| ==> c !in parts[k]
    ensures c !in Join(parts, sep)
  {
    if c in Join(parts, sep) {
      JoinChars(parts, sep, c);
      assert false;
    }
  }

  /** One label of `_flatten_columns`: a tuple's levels joined by `_`, spaces replaced by `_`. */
  function FlattenLabel(c: ColumnLabel): (r: string)
    ensures ' ' !in r
  {
    match c
    case Flat(n) => Replace(n, ' ', '_')
    case Levels(ls) =>
      var parts := NoSpaces(ls);
      JoinAvoids(parts, '_', ' ');
      Join(parts, '_')
  }

  /** Flattening a flattened label changes nothing. */
  lemma FlattenIdempotent(c: ColumnLabel)
    ensures FlattenLabel(Flat(FlattenLabel(c))) == FlattenLabel(c)
  {
    var s := FlattenLabel(c);
    assert Replace(s, ' ', '_') == s;
  }

  /** A plain name without spaces is left alone. */
  lemma FlattenPlainName(n: string)
    requires ' ' !in n
    ensures FlattenLabel(Flat(n)) == n
  {
  }

  /** Levels free of spaces and underscores are recovered by splitting the flat label at `_`. */
  lemma FlattenLevelsSplit(ls: seq<string>)
    requires |ls| >= 1
    requires forall k :: 0 <= k < |ls| ==> ' ' !in ls[k] && '_' !in ls[k]
    ensures Split(FlattenLabel(Levels(ls)), '_') == ls
  {
    var parts := NoSpaces(ls);
    assert forall k :: 0 <= k < |ls| ==> parts[k] == ls[k];
    assert parts == ls;
    SplitJoin(ls, '_');
  }

  /** A row of prices: its date and its fields. */
  datatype Row = Row(date: int, fields: seq<real>)

  /** A frame of prices whose column labels are reassigned in place. */
  class PriceFrame {
    var columns: seq<ColumnLabel>
    var rows: seq<Row>

    constructor (columns: seq<ColumnLabel>, rows: seq<Row>)
      ensures this.columns == columns && this.rows == rows
    {
      this.columns := columns;
      this.rows := rows;
    }

    /**
     * `_flatten_columns(df)`: replaces every label by its flat form, in
     * place, keeping the count and the order of the columns and the rows.
     */
    method FlattenColumns()
      modifies this
      ensures |columns| == |old(columns)|
      ensures forall i :: 0 <= i < |columns| ==> columns[i] == Flat(FlattenLabel(old(columns)[i]))
      ensures forall i :: 0 <= i < |columns| ==> columns[i].Flat? && ' ' !in columns[i].name
      ensures rows == old(rows)
    {
      columns := seq(|columns|, i requires 0 <= i < |columns| reads this => Flat(FlattenLabel(columns[i])));
    }
  }

  /** No row of `s` is dated `d`. */
  predicate Absent(s: seq<Row>, d: int)
  {
    forall i :: 0 <= i < |s| ==> s[i].date != d
  }

  /** No date occurs twice. */
  predicate DistinctDates(s: seq<Row>)
  {
    forall i, j :: 0 <= i < j < |s| ==> s[i].date != s[j].date
  }

  /** Dates in non-decreasing order. */
  predicate SortedByDate(s: seq<Row>)
  {
    forall i, j :: 0 <= i < j < |s| ==> s[i].date <= s[j].date
  }

  /** Dates in strictly increasing order: a sorted index without repeats. */
  predicate IncreasingDates(s: seq<Row>)
  {
    forall i, j :: 0 <= i < j < |s| ==> s[i].date < s[j].date
  }

  lemma AbsentTail(s: seq<Row>, d: int)
    requires s != []
    ensures Absent(s, d) <==> s[0].date != d && Absent(s[1..], d)
  {
    if s[0].date != d && Absent(s[1..], d) {
      forall i | 1 <= i < |s|
        ensures s[i].date != d
      {
        assert s[i] == s[1..][i - 1];
      }
    }
  }

  /** A leading row is distinct from the rest exactly when its date is absent there. */
  lemma DistinctCons(s: seq<Row>)
    requires s != []
    ensures DistinctDates(s) <==> DistinctDates(s[1..]) && Absent(s[1..], s[0].date)
  {
    if DistinctDates(s[1..]) && Absent(s[1..], s[0].date) {
      forall i, j | 0 <= i < j < |s|
        ensures s[i].date != s[j].date
      {
        assert s[j] == s[1..][j - 1];
        if i > 0 {
          assert s[i] == s[1..][i - 1];
        }
      }
    }
  }

  /** Rows drawn from `a` avoid every date `a` avoids. */
  lemma SameRowsAbsent(a: seq<Row>, b: seq<Row>, d: int)
    requires multiset(b) <= multiset(a) && Absent(a, d)
    ensures Absent(b, d)
  {
    forall i | 0 <= i < |b|
      ensures b[i].date != d
    {
      assert b[i] in multiset(b);
      assert b[i] in a;
    }
  }

  /** The rows as a date-keyed table; for a repeated date the later row wins. */
  function AsMap(s: seq<Row>): map<int, seq<real>>
  {
    if s == [] then map[]
    else map[s[0].date := s[0].fields] + AsMap(s[1..])
  }

  /** The table has exactly the dates of the rows. */
  lemma {:induction false} AsMapKeys(s: seq<Row>, d: int)
    ensures d in AsMap(s) <==> !Absent(s, d)
    decreases |s|
  {
    if s != [] {
      AsMapKeys(s[1..], d);
      AbsentTail(s, d);
    }
  }

  /** A leading row whose date is new to the table just adds its entry. */
  lemma PrependFresh(h: Row, m: map<int, seq<real>>)
    requires h.date !in m
    ensures map[h.date := h.fields] + m == m[h.date := h.fields]
  {
  }

  /** A leading row with another date commutes with adding an entry. */
  lemma PrependUpdate(h: Row, m: map<int, seq<real>>, k: int, v: seq<real>)
    requires h.date != k
    ensures map[h.date := h.fields] + m[k := v] == (map[h.date := h.fields] + m)[k := v]
  {
  }

  lemma UnionAssociative(m1: map<int, seq<real>>, m2: map<int, seq<real>>, m3: map<int, seq<real>>)
    ensures m1 + (m2 + m3) == (m1 + m2) + m3
  {
  }

  /** Concatenation is a right-biased union of the tables. */
  lemma {:induction false} AsMapConcat(a: seq<Row>, b: seq<Row>)
    ensures AsMap(a + b) == AsMap(a) + AsMap(b)
    decreases |a|
  {
    if a == [] {
      assert a + b == b;
    } else {
      var ab := a + b;
      assert ab[0] == a[0] && ab[1..] == a[1..] + b;
      AsMapConcat(a[1..], b);
      UnionAssociative(map[a[0].date := a[0].fields], AsMap(a[1..]), AsMap(b));
    }
  }

  /** `df[~df.index.duplicated(keep="last")]`: keeps a row only when no later row has its date. */
  function KeepLast(s: seq<Row>): (r: seq<Row>)
    ensures DistinctDates(r)
    ensures forall d :: Absent(s, d) ==> Absent(r, d)
    decreases |s|
  {
    if s == [] then []
    else
      var rest := KeepLast(s[1..]);
      assert forall d :: Absent(s, d) ==> Absent(s[1..], d) by {
        forall d | Absent(s, d) ensures Absent(s[1..], d) { AbsentTail(s, d); }
      }
      if Absent(s[1..], s[0].date) then
        var r := [s[0]] + rest;
        assert r[1..] == rest;
        DistinctCons(r);
        assert forall d :: Absent(s, d) ==> Absent(r, d) by {
          forall d | Absent(s, d) ensures Absent(r, d) { AbsentTail(s, d); AbsentTail(r, d); }
        }
        r
      else rest
  }

  /** Dropping the earlier duplicates loses nothing the table shows. */
  lemma {:induction false} KeepLastSameMap(s: seq<Row>)
    ensures AsMap(KeepLast(s)) == AsMap(s)
    decreases |s|
  {
    if s != [] {
      KeepLastSameMap(s[1..]);
      var m := AsMap(s[1..]);
      AsMapKeys(s[1..], s[0].date);
      if !Absent(s[1..], s[0].date) {
        assert map[s[0].date := s[0].fields] + m == m;
      } else {
        var r := KeepLast(s);
        assert r == [s[0]] + KeepLast(s[1..]);
        assert r[1..] == KeepLast(s[1..]);
      }
    }
  }

  /** A row no later than every row of a sorted sequence may lead it. */
  lemma SortedCons(h: Row, t: seq<Row>)
    requires SortedByDate(t) && forall i :: 0 <= i < |t| ==> h.date <= t[i].date
    ensures SortedByDate([h] + t)
  {
    var r := [h] + t;
    forall i, j | 0 <= i < j < |r|
      ensures r[i].date <= r[j].date
    {
      assert r[j] == t[j - 1];
      if i > 0 {
        assert r[i] == t[i - 1];
      }
    }
  }

  /** Rows drawn from `a` keep every lower bound on the dates of `a`. */
  lemma SameRowsBound(a: seq<Row>, b: seq<Row>, lo: int)
    requires multiset(b) <= multiset(a) && forall i :: 0 <= i < |a| ==> lo <= a[i].date
    ensures forall i :: 0 <= i < |b| ==> lo <= b[i].date
  {
    forall i | 0 <= i < |b|
      ensures lo <= b[i].date
    {
      assert b[i] in multiset(b);
      assert b[i] in a;
    }
  }

  lemma ConsMultiset(s: seq<Row>)
    requires s != []
    ensures multiset(s) == multiset{s[0]} + multiset(s[1..])
  {
    assert s == [s[0]] + s[1..];
  }

  /** Inserts a row before the first row with a later or equal date. */
  function InsertByDate(x: Row, s: seq<Row>): (r: seq<Row>)
    requires SortedByDate(s)
    ensures SortedByDate(r)
    ensures multiset(r) == multiset(s) + multiset{x}
    decreases |s|
  {
    if s == [] || x.date <= s[0].date then
      SortedCons(x, s);
      [x] + s
    else
      var t := InsertByDate(x, s[1..]);
      ConsMultiset(s);
      SameRowsBound([x] + s[1..], t, s[0].date);
      SortedCons(s[0], t);
      [s[0]] + t
  }

  /** Inserting a row whose date is new keeps the dates distinct. */
  lemma {:induction false} InsertDistinct(x: Row, s: seq<Row>)
    requires SortedByDate(s) && DistinctDates(s) && Absent(s, x.date)
    ensures DistinctDates(InsertByDate(x, s))
    decreases |s|
  {
    var r := InsertByDate(x, s);
    if s == [] || x.date <= s[0].date {
      assert r[1..] == s;
      DistinctCons(r);
    } else {
      DistinctCons(s);
      AbsentTail(s, x.date);
      var t := InsertByDate(x, s[1..]);
      InsertDistinct(x, s[1..]);
      SameRowsAbsent([x] + s[1..], t, s[0].date);
      assert r[1..] == t;
      DistinctCons(r);
    }
  }

  /** Inserting a row with a new date adds exactly that entry to the table. */
  lemma {:induction false} InsertSameMap(x: Row, s: seq<Row>)
    requires SortedByDate(s) && Absent(s, x.date)
    ensures AsMap(InsertByDate(x, s)) == AsMap(s)[x.date := x.fields]
    decreases |s|
  {
    var r := InsertByDate(x, s);
    AsMapKeys(s, x.date);
    if s == [] || x.date <= s[0].date {
      assert r[1..] == s;
      PrependFresh(x, AsMap(s));
    } else {
      AbsentTail(s, x.date);
      InsertSameMap(x, s[1..]);
      assert r[0] == s[0] && r[1..] == InsertByDate(x, s[1..]);
      PrependUpdate(s[0], AsMap(s[1..]), x.date, x.fields);
    }
  }

  /** `df.sort_index()` by insertion: sorted by date and the same rows. */
  function SortByDate(s: seq<Row>): (r: seq<Row>)
    ensures SortedByDate(r)
    ensures multiset(r) == multiset(s)
    decreases |s|
  {
    if s == [] then []
    else
      assert s == [s[0]] + s[1..];
      InsertByDate(s[0], SortByDate(s[1..]))
  }

  /** Sorting keeps the dates distinct. */
  lemma {:induction false} SortDistinct(s: seq<Row>)
    requires DistinctDates(s)
    ensures DistinctDates(SortByDate(s))
    decreases |s|
  {
    if s != [] {
      DistinctCons(s);
      SortDistinct(s[1..]);
      var t := SortByDate(s[1..]);
      SameRowsAbsent(s[1..], t, s[0].date);
      InsertDistinct(s[0], t);
    }
  }

  /** Sorting rows with distinct dates keeps the table. */
  lemma {:induction false} SortSameMap(s: seq<Row>)
    requires DistinctDates(s)
    ensures AsMap(SortByDate(s)) == AsMap(s)
    decreases |s|
  {
    if s != [] {
      DistinctCons(s);
      SortSameMap(s[1..]);
      var t := SortByDate(s[1..]);
      SameRowsAbsent(s[1..], t, s[0].date);
      InsertSameMap(s[0], t);
      AsMapKeys(s[1..], s[0].date);
      PrependFresh(s[0], AsMap(s[1..]));
    }
  }

  /** The merged rows of the cache and a download: `concat`, keep the last duplicate, sort. */
  function Merge(cached: seq<Row>, downloaded: seq<Row>): seq<Row>
  {
    SortByDate(KeepLast(cached + downloaded))
  }

  /** After the merge, every date of either side is present once, a shared date with the downloaded row. */
  lemma MergeTable(cached: seq<Row>, downloaded: seq<Row>)
    ensures AsMap(Merge(cached, downloaded)) == AsMap(cached) + AsMap(downloaded)
  {
    KeepLastSameMap(cached + downloaded);
    SortSameMap(KeepLast(cached + downloaded));
    AsMapConcat(cached, downloaded);
  }

  /** Sorted rows with distinct dates are strictly increasing. */
  lemma SortedDistinctIncreasing(s: seq<Row>)
    requires SortedByDate(s) && DistinctDates(s)
    ensures IncreasingDates(s)
  {
  }

  /** The merged rows are sorted by date with no date twice. */
  lemma MergeSorted(cached: seq<Row>, downloaded: seq<Row>)
    ensures IncreasingDates(Merge(cached, downloaded))
  {
    SortDistinct(KeepLast(cached + downloaded));
    SortedDistinctIncreasing(Merge(cached, downloaded));
  }

  /** The largest cached date. */
  function MaxDate(s: seq<Row>): (d: int)
    requires s != []
    ensures forall i :: 0 <= i < |s| ==> s[i].date <= d
    ensures exists i :: 0 <= i < |s| && s[i].date == d
  {
    if |s| == 1 then s[0].date
    else
      var m := MaxDate(s[1..]);
      assert s[1..][0] == s[1];
      if s[0].date >= m then s[0].date else m
  }

  /**
   * `last_date + 1 day`: where the update download starts. An empty cache
   * has no last date.
   */
  function NextStart(cached: seq<Row>): (r: Option<int>)
    ensures r.None? <==> cached == []
    ensures r.Some? ==> forall i :: 0 <= i < |cached| ==> cached[i].date < r.value
    ensures r.Some? ==> exists i :: 0 <= i < |cached| && cached[i].date == r.value - 1
  {
    if cached == [] then None else Some(MaxDate(cached) + 1)
  }

  /**
   * The update step: the cache is sorted; an empty download returns it as
   * it is, otherwise the merge is the new cache.
   */
  function Update(cached: seq<Row>, downloaded: seq<Row>): (r: seq<Row>)
    ensures downloaded == [] ==> multiset(r) == multiset(cached)
    ensures SortedByDate(r)
  {
    var old_ := SortByDate(cached);
    if downloaded == [] then old_ else Merge(old_, downloaded)
  }

  /**
   * With a cache free of repeated dates, the update holds every cached and
   * downloaded date, the downloaded row winning for a shared date.
   */
  lemma UpdateTable(cached: seq<Row>, downloaded: seq<Row>)
    requires DistinctDates(cached)
    ensures AsMap(Update(cached, downloaded)) == AsMap(cached) + AsMap(downloaded)
  {
    SortSameMap(cached);
    if downloaded != [] {
      MergeTable(SortByDate(cached), downloaded);
    }
  }

  /** With a cache free of repeated dates, the new cache has strictly increasing dates. */
  lemma UpdateIncreasing(cached: seq<Row>, downloaded: seq<Row>)
    requires DistinctDates(cached)
    ensures IncreasingDates(Update(cached, downloaded))
  {
    if downloaded == [] {
      SortDistinct(cached);
      SortedDistinctIncreasing(SortByDate(cached));
    } else {
      MergeSorted(SortByDate(cached), downloaded);
    }
  }

  /** Rows whose dates are distinct survive `KeepLast` unchanged. */
  lemma {:induction false} KeepLastDistinct(s: seq<Row>)
    requires DistinctDates(s)
    ensures KeepLast(s) == s
    decreases |s|
  {
    if s != [] {
      DistinctCons(s);
      KeepLastDistinct(s[1..]);
      assert s == [s[0]] + s[1..];
    }
  }

  /** Sorting rows already in strictly increasing date order changes nothing. */
  lemma {:induction false} SortSorted(s: seq<Row>)
    requires IncreasingDates(s)
    ensures SortByDate(s) == s
    decreases |s|
  {
    if s != [] {
      assert IncreasingDates(s[1..]);
      SortSorted(s[1..]);
      assert s == [s[0]] + s[1..];
      if |s| > 1 {
        assert s[1..][0] == s[1];
      }
    }
  }

  /** A cache followed by a download dated after it is strictly increasing. */
  lemma AppendIncreasing(cached: seq<Row>, downloaded: seq<Row>, start: int)
    requires IncreasingDates(cached) && IncreasingDates(downloaded)
    requires forall i :: 0 <= i < |cached| ==> cached[i].date < start
    requires forall i :: 0 <= i < |downloaded| ==> start <= downloaded[i].date
    ensures IncreasingDates(cached + downloaded)
  {
    var all := cached + downloaded;
    forall i, j | 0 <= i < j < |all|
      ensures all[i].date < all[j].date
    {
      if j >= |cached| {
        assert all[j] == downloaded[j - |cached|];
        if i >= |cached| {
          assert all[i] == downloaded[i - |cached|];
        }
      }
    }
  }

  /**
   * A download that starts at the next start date only appends: over a
   * sorted cache and a sorted download, the update is the cached rows
   * followed by the downloaded ones.
   */
  lemma UpdateAppends(cached: seq<Row>, downloaded: seq<Row>)
    requires IncreasingDates(cached) && IncreasingDates(downloaded)
    requires NextStart(cached).Some? ==> forall i :: 0 <= i < |downloaded| ==> NextStart(cached).value <= downloaded[i].date
    ensures Update(cached, downloaded) == cached + downloaded
  {
    SortSorted(cached);
    if downloaded != [] {
      var all := cached + downloaded;
      if cached == [] {
        assert all == downloaded;
      } else {
        AppendIncreasing(cached, downloaded, NextStart(cached).value);
      }
      KeepLastDistinct(all);
      SortSorted(all);
    }
  }
}

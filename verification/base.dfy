/**
 * Shared vocabulary of the model: optional and failing results, and the
 * date-indexed series that every component passes around. Dates are day
 * numbers; a pandas index is a sequence of them.
 */
module Base {

  datatype Option<+T> = None | Some(value: T)

  datatype Result<+T, +E> = Success(value: T) | Failure(error: E)

  /** A pandas index that is sorted and has no repeated label. */
  predicate StrictlyIncreasing(s: seq<int>)
  {
    forall i, j :: 0 <= i < j < |s| ==> s[i] < s[j]
  }

  /** No label occurs twice (`Index.is_unique`). */
  predicate Distinct<T(==)>(s: seq<T>)
  {
    forall i, j :: 0 <= i < j < |s| ==> s[i] != s[j]
  }

  /** Position of a label in an index (`Index.get_loc` on a unique index). */
  function IndexOf(s: seq<int>, x: int): (i: nat)
    requires x in s
    ensures i < |s| && s[i] == x
    ensures forall j :: 0 <= j < i ==> s[j] != x
  {
    if s[0] == x then 0 else 1 + IndexOf(s[1..], x)
  }

  /** In a sorted index, label order and position order agree. */
  lemma PositionOrder(s: seq<int>, i: nat, j: nat)
    requires StrictlyIncreasing(s) && i < |s| && j < |s|
    requires s[i] < s[j]
    ensures i < j
  {
  }

  /** A pandas Series: values labelled by a date index of the same length. */
  datatype Series<V> = Series(index: seq<int>, values: seq<V>) {
    predicate Valid()
    {
      |index| == |values|
    }
  }

  /** Label lookup `series[d]` (`series.loc[d]`). */
  function At<V>(s: Series<V>, d: int): V
    requires s.Valid() && d in s.index
  {
    s.values[IndexOf(s.index, d)]
  }
}

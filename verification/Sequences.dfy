/** Sequences in which no value stands twice, and what of a sequence passes a filter. */
module Sequences {

  ghost predicate Distinct<T(!new)>(values: seq<T>) {
    forall i, j :: 0 <= i < j < |values| ==> values[i] != values[j]
  }

  /** A sequence without repetition has as many values as places. */
  lemma {:induction false} DistinctCount<T(!new)>(values: seq<T>)
    requires Distinct(values)
    ensures |set value | value in values| == |values|
  {
    if values != [] {
      var last, before := values[|values| - 1], values[..|values| - 1];
      DistinctCount(before);
      assert (set value | value in values) == (set value | value in before) + {last};
    }
  }

  function Passing<T>(rows: seq<T>, filter: T -> bool): (r: seq<T>)
    ensures |r| <= |rows|
  {
    if rows == [] then []
    else (if filter(rows[0]) then [rows[0]] else []) + Passing(rows[1..], filter)
  }
}

/** Sums of a weight over the rows of a table. */
module Sums {

  function RowSum<T>(rows: seq<T>, weight: T -> int): int {
    if rows == [] then 0 else RowSum(rows[..|rows| - 1], weight) + weight(rows[|rows| - 1])
  }

  lemma RowSumAppend<T>(rows: seq<T>, row: T, weight: T -> int)
    ensures RowSum(rows + [row], weight) == RowSum(rows, weight) + weight(row)
  {
    assert (rows + [row])[..|rows|] == rows;
  }

  lemma {:induction false} RowSumUpdate<T>(rows: seq<T>, i: nat, row: T, weight: T -> int)
    requires i < |rows|
    ensures RowSum(rows[i := row], weight) == RowSum(rows, weight) - weight(rows[i]) + weight(row)
  {
    var n := |rows| - 1;
    if i == n {
      assert rows[i := row][..n] == rows[..n];
    } else {
      assert rows[i := row][..n] == rows[..n][i := row];
      RowSumUpdate(rows[..n], i, row, weight);
    }
  }

  lemma {:induction false} RowSumConcat<T>(a: seq<T>, b: seq<T>, weight: T -> int)
    ensures RowSum(a + b, weight) == RowSum(a, weight) + RowSum(b, weight)
  {
    if b == [] {
      assert a + b == a;
    } else {
      assert (a + b)[..|a + b| - 1] == a + b[..|b| - 1];
      RowSumConcat(a, b[..|b| - 1], weight);
    }
  }

  lemma {:induction false} RowSumMonotone<T>(rows: seq<T>, low: T -> int, high: T -> int)
    requires forall i :: 0 <= i < |rows| ==> low(rows[i]) <= high(rows[i])
    ensures RowSum(rows, low) <= RowSum(rows, high)
    ensures RowSum(rows, low) == RowSum(rows, high) <==>
            forall i :: 0 <= i < |rows| ==> low(rows[i]) == high(rows[i])
  {
    if rows != [] {
      var n := |rows| - 1;
      RowSumMonotone(rows[..n], low, high);
      assert forall i :: 0 <= i < n ==> rows[..n][i] == rows[i];
      if RowSum(rows, low) == RowSum(rows, high) {
        forall i | 0 <= i < |rows| ensures low(rows[i]) == high(rows[i]) {
          if i < n { assert low(rows[..n][i]) == high(rows[..n][i]); }
        }
      }
    }
  }

  lemma {:induction false} RowSumNonNegative<T>(rows: seq<T>, weight: T -> int)
    requires forall i :: 0 <= i < |rows| ==> weight(rows[i]) >= 0
    ensures RowSum(rows, weight) >= 0
  {
    if rows != [] {
      var n := |rows| - 1;
      assert forall i :: 0 <= i < n ==> rows[..n][i] == rows[i];
      RowSumNonNegative(rows[..n], weight);
    }
  }

  /** Sums of weights that add up row by row add up. */
  lemma {:induction false} RowSumSplit<T>(rows: seq<T>, whole: T -> int, left: T -> int, right: T -> int)
    requires forall i :: 0 <= i < |rows| ==> whole(rows[i]) == left(rows[i]) + right(rows[i])
    ensures RowSum(rows, whole) == RowSum(rows, left) + RowSum(rows, right)
  {
    if rows != [] {
      var n := |rows| - 1;
      assert forall i :: 0 <= i < n ==> rows[..n][i] == rows[i];
      RowSumSplit(rows[..n], whole, left, right);
    }
  }

  lemma {:induction false} RowSumScaled<T>(rows: seq<T>, weight: T -> int, unit: T -> int, factor: int)
    requires forall i :: 0 <= i < |rows| ==> weight(rows[i]) == factor * unit(rows[i])
    ensures RowSum(rows, weight) == factor * RowSum(rows, unit)
  {
    if rows != [] {
      var n := |rows| - 1;
      assert forall i :: 0 <= i < n ==> rows[..n][i] == rows[i];
      RowSumScaled(rows[..n], weight, unit, factor);
    }
  }

  /** Replace row `i`, or add it at the end. */
  function Put<T>(rows: seq<T>, i: nat, row: T): seq<T>
    requires i <= |rows|
  {
    if i < |rows| then rows[i := row] else rows + [row]
  }

  /** What row `i` weighed before: a row not there yet weighs nothing. */
  function Before<T>(rows: seq<T>, i: nat, w: T -> int): int
    requires i <= |rows|
  {
    if i < |rows| then w(rows[i]) else 0
  }

  lemma PutSum<T>(rows: seq<T>, i: nat, row: T, w: T -> int)
    requires i <= |rows|
    ensures RowSum(Put(rows, i, row), w) == RowSum(rows, w) - Before(rows, i, w) + w(row)
  {
    if i < |rows| {
      RowSumUpdate(rows, i, row, w);
    } else {
      RowSumAppend(rows, row, w);
    }
  }
}

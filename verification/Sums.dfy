/** Sums over the rows of a table and over the values of a map. */
module Sums {

  /** The sum of one column expression over all rows. */
  function SumOf<T>(rows: seq<T>, weight: T -> int): int {
    if rows == [] then 0 else SumOf(rows[..|rows| - 1], weight) + weight(rows[|rows| - 1])
  }

  lemma SumAppend<T>(rows: seq<T>, row: T, weight: T -> int)
    ensures SumOf(rows + [row], weight) == SumOf(rows, weight) + weight(row)
  {
    assert (rows + [row])[..|rows|] == rows;
  }

  lemma {:induction false} SumUpdate<T>(rows: seq<T>, i: nat, row: T, weight: T -> int)
    requires i < |rows|
    ensures SumOf(rows[i := row], weight) == SumOf(rows, weight) - weight(rows[i]) + weight(row)
  {
    var n := |rows| - 1;
    if i == n {
      assert rows[i := row][..n] == rows[..n];
    } else {
      SumUpdate(rows[..n], i, row, weight);
      assert rows[i := row][..n] == rows[..n][i := row];
    }
  }

  lemma {:induction false} SumAtMost<T>(rows: seq<T>, low: T -> int, high: T -> int)
    requires forall i :: 0 <= i < |rows| ==> low(rows[i]) <= high(rows[i])
    ensures SumOf(rows, low) <= SumOf(rows, high)
  {
    if rows != [] { SumAtMost(rows[..|rows| - 1], low, high); }
  }

  lemma {:induction false} SumSame<T>(rows: seq<T>, one: T -> int, other: T -> int)
    requires forall i :: 0 <= i < |rows| ==> one(rows[i]) == other(rows[i])
    ensures SumOf(rows, one) == SumOf(rows, other)
  {
    if rows != [] { SumSame(rows[..|rows| - 1], one, other); }
  }

  lemma {:induction false} SumAdds<T>(rows: seq<T>, sum: T -> int, left: T -> int, right: T -> int)
    requires forall i :: 0 <= i < |rows| ==> sum(rows[i]) == left(rows[i]) + right(rows[i])
    ensures SumOf(rows, sum) == SumOf(rows, left) + SumOf(rows, right)
  {
    if rows != [] { SumAdds(rows[..|rows| - 1], sum, left, right); }
  }

  lemma {:induction false} SumZero<T>(rows: seq<T>, weight: T -> int)
    requires forall i :: 0 <= i < |rows| ==> weight(rows[i]) == 0
    ensures SumOf(rows, weight) == 0
  {
    if rows != [] { SumZero(rows[..|rows| - 1], weight); }
  }

  lemma {:induction false} SumCovers<T>(rows: seq<T>, weight: T -> int)
    requires forall i :: 0 <= i < |rows| ==> weight(rows[i]) >= 0
    ensures SumOf(rows, weight) >= 0
    ensures forall i :: 0 <= i < |rows| ==> weight(rows[i]) <= SumOf(rows, weight)
    ensures forall i, j :: 0 <= i < j < |rows| ==> weight(rows[i]) + weight(rows[j]) <= SumOf(rows, weight)
  {
    if rows != [] {
      var front := rows[..|rows| - 1];
      SumCovers(front, weight);
      assert forall i :: 0 <= i < |front| ==> front[i] == rows[i];
    }
  }

  /** The sum of the values of a map, in whatever order. */
  ghost function MapSum(m: map<nat, int>): int {
    if m == map[] then 0 else var k :| k in m; m[k] + MapSum(m - {k})
  }

  lemma {:induction false} MapSumRemove(m: map<nat, int>, k: nat)
    requires k in m
    ensures MapSum(m) == m[k] + MapSum(m - {k})
  {
    var c: nat :| c in m && MapSum(m) == m[c] + MapSum(m - {c});
    if c != k {
      MapSumRemove(m - {c}, k);
      MapSumRemove(m - {k}, c);
      assert m - {c} - {k} == m - {k} - {c};
    }
  }

  lemma MapSumInsert(m: map<nat, int>, k: nat, v: int)
    requires k !in m
    ensures MapSum(m[k := v]) == MapSum(m) + v
  {
    MapSumRemove(m[k := v], k);
    assert m[k := v] - {k} == m;
  }

  lemma {:induction false} MapSumNotNegative(m: map<nat, int>)
    requires forall k :: k in m ==> m[k] >= 0
    ensures MapSum(m) >= 0
    decreases m
  {
    if m != map[] {
      var k: nat :| k in m && MapSum(m) == m[k] + MapSum(m - {k});
      MapSumNotNegative(m - {k});
    }
  }

  lemma {:induction false} MapSumZero(m: map<nat, int>)
    requires forall k :: k in m ==> m[k] == 0
    ensures MapSum(m) == 0
    decreases m
  {
    if m != map[] {
      var k: nat :| k in m && MapSum(m) == m[k] + MapSum(m - {k});
      MapSumZero(m - {k});
    }
  }

  lemma {:induction false} MapSumAdds(sum: map<nat, int>, left: map<nat, int>, right: map<nat, int>)
    requires sum.Keys == left.Keys == right.Keys
    requires forall k :: k in sum ==> sum[k] == left[k] + right[k]
    ensures MapSum(sum) == MapSum(left) + MapSum(right)
    decreases sum
  {
    if k: nat :| k in sum {
      MapSumRemove(sum, k);
      MapSumRemove(left, k);
      MapSumRemove(right, k);
      MapSumAdds(sum - {k}, left - {k}, right - {k});
    } else {
      assert sum == map[] && left == map[] && right == map[];
    }
  }

  /** Keys that count nothing may be added. */
  lemma {:induction false} MapSumPadded(m: map<nat, int>, padded: map<nat, int>)
    requires m.Keys <= padded.Keys
    requires forall k :: k in padded ==> padded[k] == if k in m then m[k] else 0
    ensures MapSum(padded) == MapSum(m)
    decreases padded
  {
    if k: nat :| k in padded {
      MapSumRemove(padded, k);
      if k in m { MapSumRemove(m, k); } else { assert m - {k} == m; }
      MapSumPadded(m - {k}, padded - {k});
    } else {
      assert padded == map[] && m == map[];
    }
  }

  lemma {:induction false} MapSumOnes(m: map<nat, int>)
    requires forall k :: k in m ==> m[k] == 1
    ensures MapSum(m) == |m|
    decreases m
  {
    if k: nat :| k in m {
      MapSumRemove(m, k);
      MapSumOnes(m - {k});
      assert (m - {k}).Keys == m.Keys - {k};
    } else {
      assert m == map[];
    }
  }

  // ---------- Tables with a row and a column sum ----------

  function At<T>(cell: (T, nat) -> int, k: nat): T -> int { (row: T) => cell(row, k) }

  function Cells<T>(row: T, keys: set<nat>, cell: (T, nat) -> int): map<nat, int> {
    map k | k in keys :: cell(row, k)
  }

  function Columns<T>(rows: seq<T>, keys: set<nat>, cell: (T, nat) -> int): map<nat, int> {
    map k | k in keys :: SumOf(rows, At(cell, k))
  }

  /** The sum of the row sums is the sum of the column sums. */
  lemma {:induction false} RowsThenColumns<T>(rows: seq<T>, keys: set<nat>, cell: (T, nat) -> int, whole: T -> int)
    requires forall i :: 0 <= i < |rows| ==> whole(rows[i]) == MapSum(Cells(rows[i], keys, cell))
    ensures SumOf(rows, whole) == MapSum(Columns(rows, keys, cell))
  {
    if rows == [] {
      MapSumZero(Columns(rows, keys, cell));
    } else {
      var front, last := rows[..|rows| - 1], rows[|rows| - 1];
      RowsThenColumns(front, keys, cell, whole);
      MapSumAdds(Columns(rows, keys, cell), Columns(front, keys, cell), Cells(last, keys, cell));
    }
  }
}

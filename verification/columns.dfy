/**
 * Per-channel sums of a decimating script. Samples arrive as one flat stream in which
 * flat index n belongs to scan-list position n % width; a channel's accumulator is the
 * sum over its column of that stream.
 */
module Columns {
  import Arith

  /** A freshly zeroed accumulation table. */
  function Zeros(n: nat): (z: seq<int>)
    ensures |z| == n && forall k | 0 <= k < n :: z[k] == 0
  {
    seq(n, k => 0)
  }

  /** Sum of the values whose flat index n has n % width == column. */
  function ColumnSum(width: nat, vals: seq<int>, column: nat): int
    requires width >= 1
  {
    if |vals| == 0 then 0
    else
      ColumnSum(width, vals[..|vals| - 1], column)
      + (if (|vals| - 1) % width == column then vals[|vals| - 1] else 0)
  }

  /** Sum over passes 0 to n - 1 of the value at `column` of each pass. */
  function PassSum(width: nat, vals: seq<int>, column: nat, n: nat): int
    requires column < width && n * width <= |vals|
  {
    if n == 0 then 0
    else
      assert n * width == (n - 1) * width + width;
      PassSum(width, vals, column, n - 1) + vals[(n - 1) * width + column]
  }

  /** Appending one value adds it to exactly the column of its flat index. */
  lemma ColumnSumAppend(width: nat, vals: seq<int>, x: int, column: nat)
    requires width >= 1
    ensures ColumnSum(width, vals + [x], column)
         == ColumnSum(width, vals, column) + (if |vals| % width == column then x else 0)
  {
    assert (vals + [x])[..|vals|] == vals;
  }

  /** Within pass b, the first j values add to a column only if the column is below j. */
  lemma {:induction false} ColumnSumWithinPass(width: nat, vals: seq<int>, column: nat, b: nat, j: nat)
    requires column < width && j <= width && b * width + j <= |vals|
    ensures ColumnSum(width, vals[..b * width + j], column)
         == ColumnSum(width, vals[..b * width], column) + (if column < j then vals[b * width + column] else 0)
  {
    if j > 0 {
      var m := b * width + j - 1;
      ColumnSumWithinPass(width, vals, column, b, j - 1);
      Arith.DivModUnique(m, width, b, j - 1);
      assert vals[..m + 1][..m] == vals[..m];
    }
  }

  /** Over whole passes, a column sum is the sum of that column's value in each pass. */
  lemma {:induction false} ColumnSumByPasses(width: nat, vals: seq<int>, column: nat, n: nat)
    requires column < width && n * width <= |vals|
    ensures ColumnSum(width, vals[..n * width], column) == PassSum(width, vals, column, n)
  {
    if n > 0 {
      assert n * width == (n - 1) * width + width;
      ColumnSumByPasses(width, vals, column, n - 1);
      ColumnSumWithinPass(width, vals, column, n - 1, width);
    }
  }

  /** The column sum up to the last pass's value at `column` covers that column in all n passes. */
  lemma ColumnThroughLastPass(width: nat, vals: seq<int>, column: nat, n: nat)
    requires column < width && n >= 1 && |vals| == n * width
    ensures 0 <= (n - 1) * width + column < |vals|
    ensures ColumnSum(width, vals[..(n - 1) * width + column + 1], column) == PassSum(width, vals, column, n)
  {
    Arith.CyclePosition(n, 1, width, column, (n - 1) * width + column);
    Arith.MulMonotone(0, n - 1, width);
    ColumnSumWithinPass(width, vals, column, n - 1, column + 1);
    ColumnSumByPasses(width, vals, column, n - 1);
  }

  /** A sum of n values that each lie within [lo, hi] lies within [n * lo, n * hi]. */
  lemma {:induction false} PassSumBounds(width: nat, vals: seq<int>, column: nat, n: nat, lo: int, hi: int)
    requires column < width && n * width <= |vals|
    requires forall m | 0 <= m < |vals| :: lo <= vals[m] <= hi
    ensures n * lo <= PassSum(width, vals, column, n) <= n * hi
  {
    if n > 0 {
      assert n * width == (n - 1) * width + width;
      PassSumBounds(width, vals, column, n - 1, lo, hi);
      assert n * lo == (n - 1) * lo + lo && n * hi == (n - 1) * hi + hi;
    }
  }
}

/** Integer facts the pass and cycle arithmetic relies on. */
module Arith {

  /** Euclidean division is determined by any quotient/remainder pair with 0 <= r < b. */
  lemma DivModUnique(a: int, b: int, q: int, r: int)
    requires b > 0 && 0 <= r < b && a == q * b + r
    ensures a / b == q && a % b == r
  {
    var q' := a / b;
    var r' := a % b;
    assert a == q' * b + r';
    assert (q - q') * b == r' - r;
    if q > q' {
      MulMonotone(1, q - q', b);
    } else if q < q' {
      MulMonotone(1, q' - q, b);
    }
  }

  lemma MulMonotone(x: int, y: int, c: int)
    requires x <= y && c >= 0
    ensures x * c <= y * c
  {
    assert y * c - x * c == (y - x) * c;
  }

  /**
   * A position inside a cycle of `d` passes of `l` values: `n` values in, on pass
   * d - c with pointer `ptr`. Where the next value falls relative to the cycle's end.
   */
  lemma CyclePosition(d: int, c: int, l: int, ptr: int, n: int)
    requires 1 <= c <= d && 0 <= ptr < l && n == (d - c) * l + ptr
    ensures 0 <= n < d * l
    ensures ptr == l - 1 && c == 1 ==> n + 1 == d * l
    ensures ptr == l - 1 && c > 1 ==> n + 1 == (d - (c - 1)) * l && n + 1 < d * l
    ensures ptr < l - 1 ==> n + 1 < d * l
  {
    MulMonotone(0, d - c, l);
    assert (d - c + 1) * l == (d - c) * l + l;
    MulMonotone(d - c + 1, d, l);
    if c > 1 {
      MulMonotone(d - c + 1, d - 1, l);
      assert (d - 1) * l + l == d * l;
    }
  }

  /** The start of block q + 1 is one block past the start of block q, and never negative. */
  lemma BlockStart(q: nat, c: nat)
    ensures 0 <= q * c
    ensures (q + 1) * c == q * c + c
  {
    MulMonotone(0, q, c);
  }
}

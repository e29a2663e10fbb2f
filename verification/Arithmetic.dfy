/** Machine widths, and facts about products and quotients that several models need one step at a time. */
module Arithmetic {
  const U16: nat := 0x1_0000
  const U32: nat := 0x1_0000_0000
  const U64: nat := 0x1_0000_0000_0000_0000

  function Min(a: nat, b: nat): nat { if a < b then a else b }

  function Max(a: nat, b: nat): nat { if a < b then b else a }

  /** `a - b`, zero where `b` is larger; for times, how long ago `b` was at `a`. */
  function SaturatingSub(a: nat, b: nat): nat { if a < b then 0 else a - b }

  lemma {:induction false} MulLe(a: int, b: int, d: nat)
    requires a <= b
    ensures a * d <= b * d
  {
    assert b * d == a * d + (b - a) * d;
  }

  lemma {:induction false} OneTimesMore(n: int, d: int)
    ensures n * d == (n - 1) * d + d
  {
  }

  lemma {:induction false} SquareLe(a: nat, b: nat)
    requires a <= b
    ensures a * a <= b * b
  {
    MulLe(a, b, a);
    MulLe(a, b, b);
  }

  lemma {:induction false} MulLt(a: int, b: int, d: int)
    requires a < b && d > 0
    ensures a * d + d <= b * d
  {
    assert b * d == a * d + d + (b - a - 1) * d;
  }

  lemma {:induction false} DivUnique(n: int, d: int, q: int)
    requires d > 0 && q * d <= n < q * d + d
    ensures n / d == q
  {
    var r := n / d;
    DivBounds(n, d);
    if r < q {
      MulLt(r, q, d);
    }
    if q < r {
      MulLt(q, r, d);
    }
  }

  lemma {:induction false} DivBounds(n: int, d: int)
    requires d > 0
    ensures n / d * d <= n < n / d * d + d
  {
  }

  lemma {:induction false} DivMonotone(m: int, n: int, d: int)
    requires d > 0 && m <= n
    ensures m / d <= n / d
  {
    DivBounds(m, d);
    DivBounds(n, d);
    if n / d < m / d {
      MulLt(n / d, m / d, d);
    }
  }

  lemma {:induction false} RowMajorBound(k: nat, rows: nat, cols: nat)
    requires cols > 0 && k < rows * cols
    ensures k / cols < rows && k % cols < cols
  {
    var row := k / cols;
    assert row * cols <= k;
    if row >= rows {
      MulLe(rows, row, cols);
    }
  }
}

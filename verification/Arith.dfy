/** Mixed-radix arithmetic: numbers of the form q * d + r with 0 <= r < d. */
module Arith {
  lemma MulLe(a: int, b: int, d: int)
    requires a <= b && d >= 0
    ensures a * d <= b * d
  {
    assert (b - a) * d >= 0;
    assert b * d == a * d + (b - a) * d;
  }

  lemma MulSucc(a: int, d: int)
    ensures (a + 1) * d == a * d + d
  {}

  lemma MulAdd(a: int, b: int, d: int)
    ensures (a + b) * d == a * d + b * d
  {}

  lemma RadixOrder(q: int, r: int, x: int, y: int, d: int)
    requires 0 <= r < d && 0 <= y < d
    ensures q * d + r < x * d + y <==> q < x || (q == x && r < y)
    ensures q * d + r == x * d + y <==> q == x && r == y
  {
    if q < x {
      MulLe(q + 1, x, d);
      MulSucc(q, d);
    } else if x < q {
      MulLe(x + 1, q, d);
      MulSucc(x, d);
    }
  }

  lemma DivUnique(q: int, r: int, d: int)
    requires 0 <= r < d
    ensures (q * d + r) / d == q && (q * d + r) % d == r
  {
    var n := q * d + r;
    RadixOrder(n / d, n % d, q, r, d);
  }

  /** Position (i, j) of an m-by-d table lies inside its row-major buffer. */
  lemma SlotInRange(m: nat, d: nat, i: nat, j: nat)
    requires i < m && j < d
    ensures 0 <= i * d + j < m * d
  {
    RadixOrder(i, j, m, 0, d);
    MulLe(0, i, d);
  }
}

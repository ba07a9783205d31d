/** Facts about products and quotients that several modules need. */
module Arithmetic {
  lemma MulMonotone(a: nat, b: nat, d: nat)
    ensures a <= b ==> a * d <= b * d
  {
  }

  lemma QuotientIs(x: nat, d: nat, q: nat, r: nat)
    requires 0 < d && x == q * d + r && r < d
    ensures x / d == q && x % d == r
  {
    var q', r' := x / d, x % d;
    assert x == q' * d + r';
    MulMonotone(q + 1, q', d);
    MulMonotone(q' + 1, q, d);
  }

  lemma DivideMonotone(x: nat, y: nat, p: nat)
    requires 0 < p && x <= y
    ensures x / p <= y / p
    ensures x / p == y / p ==> x % p <= y % p
  {
    var a, b := x / p, y / p;
    assert x == a * p + x % p && y == b * p + y % p;
    MulMonotone(b + 1, a, p);
  }

  lemma MulAssociates(a: nat, b: nat, c: nat)
    ensures a * b * c == a * (b * c)
  {
  }

  /** Element `i` of a row of `n` in row `r`. */
  lemma RowAndColumn(r: nat, n: nat, i: nat)
    requires i < n
    ensures (r * n + i) / n == r && (r * n + i) % n == i
  {
    QuotientIs(r * n + i, n, r, i);
  }

  lemma DivMod(k: nat, n: nat)
    requires 0 < n
    ensures k == k / n * n + k % n && 0 <= k % n < n && 0 <= k / n
  {
  }

  /** A quotient is below `r` exactly when the number is below `r` whole rows. */
  lemma QuotientBelow(k: nat, n: nat, r: nat)
    requires 0 < n
    ensures k / n < r <==> k < r * n
  {
    DivMod(k, n);
    MulMonotone(k / n + 1, r, n);
    MulMonotone(r, k / n, n);
  }

  lemma RowsDistinct(a: nat, b: nat, t: nat, m: nat, c: nat)
    requires m < t && c < t && a * t + m == b * t + c
    ensures a == b && m == c
  {
    RowAndColumn(a, t, m);
    RowAndColumn(b, t, c);
  }

  lemma Distribute(a: nat, b: nat, t: nat)
    ensures (a + b) * t == a * t + b * t && 0 <= a * t && 0 <= b * t
  {
  }

  function Pow2(n: nat): (r: nat)
    ensures 0 < r
  {
    if n == 0 then 1 else 2 * Pow2(n - 1)
  }

  lemma {:induction false} Pow2Add(a: nat, b: nat)
    ensures Pow2(a + b) == Pow2(a) * Pow2(b)
    decreases b
  {
    if b == 0 {
      assert Pow2(0) == 1;
    } else {
      Pow2Add(a, b - 1);
      assert Pow2(a + b) == 2 * Pow2(a + (b - 1));
      assert Pow2(a) * Pow2(b) == 2 * (Pow2(a) * Pow2(b - 1));
    }
  }

  lemma QuotientAtMost(h: nat, limit: nat, d: nat)
    requires 0 < d
    ensures h <= limit / d <==> h * d <= limit
  {
    DivMod(limit, d);
    MulMonotone(h, limit / d, d);
    MulMonotone(limit / d + 1, h, d);
  }

  /** The row alignments GL accepts. */
  predicate AlignmentOk(alignment: nat) { alignment == 1 || alignment == 2 || alignment == 4 || alignment == 8 }

  /** Adding `alignment - 1` and clearing the low bits. */
  function RoundUp(n: nat, alignment: nat): nat
    requires 0 < alignment
  {
    (n + alignment - 1) / alignment * alignment
  }

  lemma RoundUpIsLeast(n: nat, alignment: nat)
    requires 0 < alignment
    ensures n <= RoundUp(n, alignment) < n + alignment && RoundUp(n, alignment) % alignment == 0
  {
    DivMod(n + alignment - 1, alignment);
    RowAndColumn((n + alignment - 1) / alignment, alignment, 0);
  }

  /** A 16-bit word in memory, low byte first. */
  function WordOf(low: nat, high: nat): nat { low + 256 * high }
}

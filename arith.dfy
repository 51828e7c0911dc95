/** Small facts about natural-number division used by the chunk and batch counts. */
module Arith {

  /** The ceiling of n / d, for d >= 1. */
  function CeilDiv(n: nat, d: nat): nat
    requires d >= 1
  {
    (n + d - 1) / d
  }

  function Min(a: int, b: int): int
  {
    if a <= b then a else b
  }

  lemma MulMonotone(a: nat, b: nat, d: nat)
    requires a <= b
    ensures a * d <= b * d
  {
  }

  lemma MulSucc(k: nat, d: nat)
    ensures (k + 1) * d == k * d + d
  {
  }

  /** k * d as repeated addition, which keeps a loop counter's invariant linear. */
  function Times(k: nat, d: nat): nat
  {
    if k == 0 then 0 else Times(k - 1, d) + d
  }

  lemma {:induction false} TimesIsProduct(k: nat, d: nat)
    ensures Times(k, d) == k * d
  {
    if k > 0 {
      TimesIsProduct(k - 1, d);
      MulSucc(k - 1, d);
    }
  }

  /** Euclidean division is unique: the quotient and remainder are determined. */
  lemma DivModUnique(x: nat, d: nat, q: nat, r: nat)
    requires d >= 1 && r < d && x == q * d + r
    ensures x / d == q && x % d == r
  {
    var q0, r0 := x / d, x % d;
    assert x == q0 * d + r0;
    if q0 < q {
      MulMonotone(q0 + 1, q, d);
    } else if q < q0 {
      MulMonotone(q + 1, q0, d);
    }
  }

  /** k is the number of full groups of d in n, and they hold n less n mod d items. */
  predicate FullFlushes(n: nat, d: nat, k: nat)
    requires d >= 1
  {
    k == n / d && k * d == n - n % d
  }

  /** k flushes of d items with fewer than d left over: k is n div d, and the rest is n mod d. */
  lemma FlushCount(n: nat, d: nat, k: nat, rest: nat)
    requires d >= 1 && rest < d && Times(k, d) + rest == n
    ensures FullFlushes(n, d, k)
  {
    TimesIsProduct(k, d);
    DivModUnique(n, d, k, rest);
  }

  /** ceil(n / d) is the k with (k-1)*d < n <= k*d, or 0 for n == 0. */
  lemma CeilDivUnique(n: nat, d: nat, k: nat)
    requires d >= 1
    requires n == 0 ==> k == 0
    requires n > 0 ==> k >= 1 && (k - 1) * d < n <= k * d
    ensures CeilDiv(n, d) == k
  {
    if n > 0 {
      assert (k - 1) * d + d == k * d;
      DivModUnique(n + d - 1, d, k, n - 1 - (k - 1) * d);
    }
  }

  /** Taking d away from n lowers the quotient and the ceiling by one and keeps the remainder. */
  lemma DivModSub(n: nat, d: nat)
    requires d >= 1 && n >= d
    ensures (n - d) / d == n / d - 1 && (n - d) % d == n % d
    ensures CeilDiv(n - d, d) + 1 == CeilDiv(n, d)
  {
    DivModUnique(n, d, n / d, n % d);
    assert n / d >= 1;
    DivModUnique(n - d, d, n / d - 1, n % d);
    var c := n - d + d - 1;
    DivModUnique(c, d, c / d, c % d);
    DivModUnique(c + d, d, c / d + 1, c % d);
  }

  /** For 0 < n <= d: the quotient is 0 below d and 1 at d, and the ceiling is 1. */
  lemma DivModSmall(n: nat, d: nat)
    requires 0 < n <= d
    ensures n < d ==> n / d == 0 && n % d == n
    ensures n == d ==> n / d == 1 && n % d == 0
    ensures CeilDiv(n, d) == 1
  {
    if n < d { DivModUnique(n, d, 0, n); } else { DivModUnique(n, d, 1, 0); }
    DivModUnique(n + d - 1, d, 1, n - 1);
  }
}

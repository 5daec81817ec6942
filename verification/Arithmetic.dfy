/** Facts about multiples and quotients used by the layouts and the counting arguments. */
module Arithmetic {

  lemma MulMono(a: int, b: int, m: nat)
    requires a <= b
    ensures a * m <= b * m
  {
    assert (b - a) * m >= 0;
  }

  lemma MulStep(n: int, m: int)
    ensures n * m == (n - 1) * m + m
  {
  }

  lemma MulLess(a: int, b: int, m: nat)
    requires a * m < b * m
    ensures a < b
  {
    if a >= b {
      MulMono(b, a, m);
    }
  }

  /** The one way to write x as a multiple of m plus a remainder. */
  lemma Quotient(x: int, m: nat, q: int)
    requires m > 0 && q * m <= x < q * m + m
    ensures x / m == q && x % m == x - q * m
  {
    var d := x / m;
    assert d * m <= x < d * m + m;
    assert (q + 1) * m == q * m + m && (d + 1) * m == d * m + m;
    MulLess(q, d + 1, m);
    MulLess(d, q + 1, m);
  }

  function RoundUp(x: nat, m: nat): nat
    requires m > 0
  {
    (x + m - 1) / m * m
  }

  /** The least multiple of m that is not below x. */
  lemma RoundUpLeast(x: nat, m: nat)
    requires m > 0
    ensures x <= RoundUp(x, m) < x + m && RoundUp(x, m) % m == 0
    ensures forall k: nat :: k * m >= x ==> RoundUp(x, m) <= k * m
  {
    var q := (x + m - 1) / m;
    assert q * m <= x + m - 1 < q * m + m;
    Quotient(q * m, m, q);
    forall k: nat | k * m >= x
      ensures q * m <= k * m
    {
      assert (k + 1) * m == k * m + m;
      MulLess(q, k + 1, m);
      MulMono(q, k, m);
    }
  }

  /** Blocks of a batch: enough for its longest response, and at least one. */
  function Blocks(longest: nat, block: nat): (n: nat)
    requires block > 0
    ensures n > 0
  {
    var n := (longest + block - 1) / block;
    if n < 1 then 1 else n
  }
}

/** Division with remainder and powers of two, kept apart so that the timing proofs stay linear. */
module Arithmetic {

  function Pow2(n: nat): (p: nat)
    ensures p > 0
  {
    if n == 0 then 1 else 2 * Pow2(n - 1)
  }

  /** Division and remainder of a possibly negative number as in C: towards zero, with the sign of the
      dividend. */
  function CDiv(a: int, b: nat): int
    requires b > 0
  {
    if a >= 0 then a / b else -((-a) / b)
  }

  function CMod(a: int, b: nat): int
    requires b > 0
  {
    if a >= 0 then a % b else -((-a) % b)
  }

  lemma MulAssociates(a: nat, b: nat, c: nat)
    ensures a * (b * c) == (a * b) * c
  {
  }

  lemma MulDistributes(a: nat, b: nat, d: nat)
    ensures (a + b) * d == a * d + b * d
  {
  }

  lemma MulMonotone(a: nat, b: nat, d: nat)
    requires a <= b
    ensures a * d <= b * d
    ensures a < b ==> a * d + d <= b * d
  {
    MulDistributes(a, b - a, d);
    if a < b {
      MulDistributes(1, b - a - 1, d);
    }
  }

  lemma QuotientUnique(q: nat, m: nat, p: nat, n: nat, d: nat)
    requires m < d && n < d
    requires q * d + m == p * d + n
    ensures q == p && m == n
  {
    if q < p {
      MulMonotone(q, p, d);
    } else if p < q {
      MulMonotone(p, q, d);
    }
  }

  lemma Divide(x: nat, d: nat) returns (q: nat, r: nat)
    requires d > 0
    ensures q == x / d && r == x % d
    ensures x == q * d + r && r < d
  {
    q, r := x / d, x % d;
  }

  lemma DivModUnique(q: nat, d: nat, m: nat)
    requires m < d
    ensures (q * d + m) / d == q && (q * d + m) % d == m
  {
    var p, n := Divide(q * d + m, d);
    QuotientUnique(q, m, p, n, d);
  }

  lemma QuotientBelow(x: nat, q: nat, r: nat, bound: nat, d: nat)
    requires x == q * d + r && x < bound * d
    ensures q < bound
  {
    if bound <= q {
      MulMonotone(bound, q, d);
    }
  }

  lemma ModOfMultiple(x: nat, d: nat, m: nat, n: nat)
    requires d > 0 && n == m * d > 0
    ensures (x % n) % d == x % d
  {
    var q, r := Divide(x, n);
    var p, t := Divide(r, d);
    MulAssociates(q, m, d);
    MulDistributes(q * m, p, d);
    DivModUnique(q * m + p, d, t);
  }

  lemma ModAdd(x: nat, k: nat, d: nat)
    requires d > 0
    ensures (x % d + k) % d == (x + k) % d
  {
    var q, r := Divide(x, d);
    var p, t := Divide(r + k, d);
    MulDistributes(q, p, d);
    DivModUnique(q + p, d, t);
  }

  lemma ModNearby(x: nat, d: nat)
    requires d > 0 && x < 3 * d
    ensures x % d == if x < d then x else if x < 2 * d then x - d else x - 2 * d
  {
    if x < d {
      DivModUnique(0, d, x);
    } else if x < 2 * d {
      DivModUnique(1, d, x - d);
    } else {
      DivModUnique(2, d, x - 2 * d);
    }
  }

  lemma MulMinus(a: int, b: int, d: nat)
    ensures (a - b) * d == a * d - b * d
  {
  }

  lemma IntQuotient(x: int, q: int, r: nat, d: nat)
    requires r < d && x == q * d + r
    ensures x / d == q && x % d == r
  {
    var p, n := x / d, x % d;
    assert x == p * d + n;
    MulMinus(q, p, d);
    if p < q {
      MulMonotone(1, q - p, d);
    } else if q < p {
      MulMinus(p, q, d);
      MulMonotone(1, p - q, d);
    }
  }

  /** Adding a multiple of the divisor moves the quotient and keeps the remainder. */
  lemma IntShift(x: int, j: int, d: nat)
    requires d > 0
    ensures (x + j * d) / d == x / d + j && (x + j * d) % d == x % d
  {
    var q, r := x / d, x % d;
    assert x == q * d + r;
    MulMinus(q, -j, d);
    MulMinus(0, j, d);
    IntQuotient(x + j * d, q + j, r, d);
  }
}

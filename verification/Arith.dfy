/** Facts about products and quotients of natural numbers. */
module Arith {
  /** Euclid's characterisation of a quotient. */
  lemma QuotientBounds(x: nat, m: nat)
    requires m > 0
    ensures x / m * m <= x < x / m * m + m
  {
  }

  lemma {:induction false} MulMono(a: nat, b: nat, m: nat)
    requires a <= b
    ensures a * m <= b * m
    decreases b
  {
    if a < b {
      MulMono(a, b - 1, m);
      assert b * m == (b - 1) * m + m;
    }
  }

  lemma QuotientAtLeast(x: nat, m: nat, q: nat)
    requires m > 0 && q * m <= x
    ensures q <= x / m
  {
    var k := x / m;
    QuotientBounds(x, m);
    assert (k + 1) * m == k * m + m;
    if k < q {
      MulMono(k + 1, q, m);
    }
  }

  lemma QuotientAtMost(x: nat, m: nat, q: nat)
    requires m > 0 && x < (q + 1) * m
    ensures x / m <= q
  {
    QuotientBounds(x, m);
    if x / m > q {
      MulMono(q + 1, x / m, m);
    }
  }

  lemma QuotientMono(x: nat, y: nat, m: nat)
    requires x <= y && m > 0
    ensures x / m <= y / m
  {
    QuotientBounds(x, m);
    QuotientAtLeast(y, m, x / m);
  }

  lemma {:induction false} RemainderOfShifted(q: nat, x: nat, m: nat)
    requires x < m
    ensures (m * q + x) % m == x
    decreases q
  {
    var y := m * q + x;
    QuotientAtLeast(y, m, q);
    assert q * m == m * q;
    assert (q + 1) * m == q * m + m;
    QuotientAtMost(y, m, q);
    assert y / m == q && y == y / m * m + y % m;
  }

  /** A multiple of m in front does not change a remainder. */
  lemma RemainderAfterWhole(a: nat, b: nat, m: nat)
    requires m > 0 && a % m == 0
    ensures (a + b) % m == b % m
  {
    var j, k := a / m, b / m;
    assert a == m * j && b == m * k + b % m;
    assert m * (j + k) == m * j + m * k;
    RemainderOfShifted(j + k, b % m, m);
  }
}

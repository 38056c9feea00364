/** Facts about division used by the scheduler and the opening book. */
module DivMod {

  lemma AtLeastOnce(n: nat, d: int)
    requires n > 0
    ensures d >= 1 ==> n * d >= n
    ensures d <= -1 ==> n * d <= 0 - n
  {
    if d >= 1 {
      assert n * d == n * (d - 1) + n;
    } else if d <= -1 {
      assert n * d == n * (d + 1) - n;
    }
  }

  /** Quotient and remainder are unique. */
  lemma Unique(a: int, n: nat, q: int, r: int)
    requires n > 0 && 0 <= r < n && a == n * q + r
    ensures a / n == q && a % n == r
  {
    var d := q - a / n;
    assert a == n * (a / n) + a % n;
    assert n * d == n * q - n * (a / n);
    AtLeastOnce(n, d);
  }

  lemma ShiftedMod(i: nat, j: nat, n: nat)
    requires n > 0
    ensures (i % n + j) % n == (i + j) % n
  {
    var q, p, r := i / n, (i % n + j) / n, (i % n + j) % n;
    assert i == n * q + i % n;
    assert i % n + j == n * p + r;
    assert n * (q + p) == n * q + n * p;
    Unique(i + j, n, q + p, r);
  }

  /** The number with digits `q` and `r`, the lower one in base `n`. */
  function Mixed(q: nat, n: nat, r: nat): nat { n * q + r }

  lemma Digits(q: nat, n: nat, r: nat)
    requires r < n
    ensures Mixed(q, n, r) / n == q && Mixed(q, n, r) % n == r
  {
    Unique(Mixed(q, n, r), n, q, r);
  }

  lemma Carry(q: nat, n: nat, r: nat)
    ensures Mixed(q, n, r) + 1 == Mixed(q, n, r + 1)
    ensures Mixed(q, n, n) == Mixed(q + 1, n, 0)
  {}

  lemma BelowRound(q: nat, n: nat, r: nat, m: nat)
    requires r < n
    ensures Mixed(q, n, r) < Mixed(m, n, 0) <==> q < m
  {
    AtLeastOnce(n, m - q);
    assert n * (m - q) == n * m - n * q;
  }

  lemma Split(k: nat, n: nat)
    requires n > 0
    ensures k == Mixed(k / n, n, k % n)
  {}

  lemma Product(a: nat, b: nat, c: nat)
    ensures a * b * c >= 0
  {}

  lemma WholePlus(d: nat, n: nat, k: nat)
    requires n > 0
    ensures (n * d + k) / n == d + k / n && (n * d + k) % n == k % n
  {
    assert n * (d + k / n) == n * d + n * (k / n);
    Unique(n * d + k, n, d + k / n, k % n);
  }

  lemma QuotientBelow(a: nat, n: nat, m: nat)
    requires n > 0 && a < n * m
    ensures a / n < m
  {
    assert a == n * (a / n) + a % n;
    assert n * (m - a / n) == n * m - n * (a / n);
    AtLeastOnce(n, m - a / n);
  }
}

/** Remainders of counters, for the port range and the check cycle. */
module Remainders {
  lemma Multiple(d: int, n: nat)
    ensures d >= 1 ==> d * n >= n
    ensures d <= -1 ==> d * n + n <= 0
  {
    if d >= 1 {
      assert (d - 1) * n >= 0;
    } else if d <= -1 {
      assert (-1 - d) * n >= 0;
    }
  }

  lemma Remainder(x: int, q: int, n: nat, r: nat)
    requires x == q * n + r && r < n
    ensures x % n == r
  {
    assert x == (x / n) * n + x % n;
    assert (q - x / n) * n == q * n - (x / n) * n;
    Multiple(q - x / n, n);
  }

  lemma Successor(f: nat, n: nat)
    requires n > 0
    ensures (f + 1) % n == if f % n == n - 1 then 0 else f % n + 1
  {
    assert f == (f / n) * n + f % n;
    if f % n == n - 1 {
      assert f + 1 == (f / n + 1) * n + 0;
      Remainder(f + 1, f / n + 1, n, 0);
    } else {
      Remainder(f + 1, f / n, n, f % n + 1);
    }
  }

  lemma Round(f: nat, j: nat, n: nat)
    requires j < n
    ensures (f + j) % n == if f % n + j < n then f % n + j else f % n + j - n
  {
    assert f == (f / n) * n + f % n;
    if f % n + j < n {
      Remainder(f + j, f / n, n, f % n + j);
    } else {
      assert (f / n + 1) * n == (f / n) * n + n;
      Remainder(f + j, f / n + 1, n, f % n + j - n);
    }
  }

  lemma RoundDown(x: nat, n: nat)
    requires n > 0
    ensures x % n < n && x - x % n >= 0 && (x - x % n) % n == 0
  {
    assert x == (x / n) * n + x % n;
    Remainder(x - x % n, x / n, n, 0);
  }

  /** Strictly between two neighbouring multiples there is none. */
  lemma Between(x: nat, y: nat, n: nat)
    requires n > 0 && x % n == 0 && x - n < y < x
    ensures y % n != 0
  {
    assert x == (x / n) * n && y == (y / n) * n + y % n;
    assert (x / n - y / n) * n == (x / n) * n - (y / n) * n;
    Multiple(x / n - y / n, n);
  }
}

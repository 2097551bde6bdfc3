/** Remainders of a counter. */
module Arithmetic {

  lemma ModNext(x: nat, n: nat)
    requires 1 <= n
    ensures (x + 1) % n == if x % n == n - 1 then 0 else x % n + 1
  {
    var q := x / n;
    assert x == n * q + x % n;
    if x % n == n - 1 {
      assert x + 1 == n * (q + 1) by { assert n * (q + 1) == n * q + n; }
      ModUnique(x + 1, n, q + 1, 0);
    } else {
      ModUnique(x + 1, n, q, x % n + 1);
    }
  }

  lemma ModUnique(x: nat, n: nat, q: nat, r: nat)
    requires x == n * q + r && r < n
    ensures x % n == r
  {
    assert x == n * (x / n) + x % n;
    MulGap(n, x / n, q);
    MulGap(n, q, x / n);
  }

  lemma MulGap(n: nat, a: nat, b: nat)
    ensures a > b ==> n * a >= n * b + n
  {
    if a > b {
      assert n * a == n * b + n * (a - b);
      assert n * (a - b) == n + n * (a - b - 1);
    }
  }
}

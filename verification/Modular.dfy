/** Facts about products, quotients and remainders that the solver does not find by itself. */
module Modular {
  lemma MulMono(a: int, b: int, n: int)
    requires a <= b && 0 <= n
    ensures a * n <= b * n
  {
  }

  /** Quotient and remainder are unique. */
  lemma ModUnique(x: int, n: int, q: int, r: int)
    requires 0 <= r < n && x == q * n + r
    ensures x % n == r && x / n == q
  {
    var q', r' := x / n, x % n;
    assert x == q' * n + r';
    assert (q - q') * n == r' - r;
    if q - q' >= 1 {
      MulMono(1, q - q', n);
    } else if q - q' <= -1 {
      MulMono(q - q', -1, n);
    }
  }

  lemma DivUnique(x: int, n: int, q: int)
    requires 0 < n && q * n <= x < q * n + n
    ensures x / n == q
  {
    ModUnique(x, n, q, x - q * n);
  }

  /** Numbers less than n apart have different remainders. */
  lemma ModApart(a: nat, b: nat, n: nat)
    requires 0 < n && a < b < a + n
    ensures a % n != b % n
  {
    var qa, qb := a / n, b / n;
    assert a == qa * n + a % n && b == qb * n + b % n;
    if a % n == b % n {
      assert (qb - qa) * n == b - a;
      if qb - qa >= 1 {
        MulMono(1, qb - qa, n);
      } else {
        MulMono(qb - qa, 0, n);
      }
    }
  }

  lemma ModAdd(f: nat, i: nat, n: nat)
    requires 0 < n
    ensures (f % n + i) % n == (f + i) % n
  {
    var q, r := (f % n + i) / n, (f % n + i) % n;
    assert f == f / n * n + f % n && f % n + i == q * n + r;
    assert (f / n + q) * n == f / n * n + q * n;
    ModUnique(f + i, n, f / n + q, r);
  }

  /** The remainder of the successor, without a division. */
  lemma ModNext(x: nat, n: nat)
    requires 0 < n
    ensures (x + 1) % n == if x % n + 1 == n then 0 else x % n + 1
  {
    var q, r := x / n, x % n;
    assert x == q * n + r;
    if r + 1 < n {
      ModUnique(x + 1, n, q, r + 1);
    } else {
      assert (q + 1) * n == q * n + n;
      ModUnique(x + 1, n, q + 1, 0);
    }
  }
}

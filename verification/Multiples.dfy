/** Facts about the multiples of a period, shared by the scheduler and the retention proofs. */
module Multiples {

  lemma Monotone(p: nat, i: int, j: int)
    requires i <= j
    ensures p * i <= p * j
  {
    if p > 0 && i < j {
      Monotone(p - 1, i, j);
    }
  }

  /** Two different multiples of p are at least p apart. */
  lemma Spacing(p: nat, x: nat, y: nat)
    requires p > 0 && x % p == 0 && y % p == 0 && x < y
    ensures x + p <= y
  {
    var i, j := x / p, y / p;
    if j <= i {
      Monotone(p, j, i);
      assert false;
    }
    Monotone(p, i + 1, j);
  }

  lemma Product(p: nat, k: nat)
    requires p > 0
    ensures (p * k) % p == 0
  {
    var q := (p * k) / p;
    if k > q {
      Monotone(p, q + 1, k);
    } else if k < q {
      Monotone(p, k + 1, q);
    }
  }

  /** Moving by whole periods keeps a multiple a multiple. */
  lemma Shift(p: nat, x: nat, k: nat)
    requires p > 0 && x % p == 0
    ensures (x + k * p) % p == 0
  {
    assert x + k * p == p * (x / p + k);
    Product(p, x / p + k);
  }

  lemma DivModUnique(x: nat, n: nat, q: nat, r: nat)
    requires r < n && x == n * q + r
    ensures x / n == q && x % n == r
  {
    if x / n < q {
      Monotone(n, x / n + 1, q);
    } else if q < x / n {
      Monotone(n, q + 1, x / n);
    }
  }
}

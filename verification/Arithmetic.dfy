/** Multiplication, division and remainder, where the solver needs help. */
module Arithmetic {
  /** A condition as a summand. */
  function One(b: bool): nat {
    if b then 1 else 0
  }

  lemma DivMod(a: nat, n: nat)
    requires n > 0
    ensures a == a / n * n + a % n && a % n < n
  {
  }

  lemma DivUnique(a: nat, n: nat, q: nat, r: nat)
    requires n > 0 && a == q * n + r && r < n
    ensures a / n == q && a % n == r
  {
    DivMod(a, n);
    var d := a / n - q;
    assert d * n == r - a % n by {
      Spread(a / n, q, n);
    }
    if d > 0 {
      Grows(d, n);
    } else if d < 0 {
      Grows(-d, n);
    }
  }

  lemma Spread(a: int, b: int, n: int)
    ensures (a - b) * n == a * n - b * n
  {
  }

  lemma Grows(d: int, n: nat)
    requires d > 0
    ensures d * n >= n
  {
    assert d * n == n + (d - 1) * n;
  }

  lemma OneMoreTime(q: int, n: int)
    ensures (q + 1) * n == q * n + n
  {
  }

  lemma Monotone(a: int, b: int, n: nat)
    requires a <= b
    ensures a * n <= b * n
  {
    Spread(b, a, n);
    if a < b {
      Grows(b - a, n);
    }
  }

  lemma Distribute(a: nat, b: nat, c: nat)
    ensures a * (b + c) == a * b + a * c
  {
  }
}

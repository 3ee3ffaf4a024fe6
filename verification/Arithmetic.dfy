/**
 Integer division, by repeated subtraction.
 */
module Arithmetic {

  function Quotient(a: nat, b: nat): nat
    requires b > 0
  {
    if a < b then 0 else 1 + Quotient(a - b, b)
  }

  lemma OneMore(n: nat, r: nat)
    ensures (r + 1) * n == r * n + n
  {
  }

  lemma {:induction false} ExactQuotient(x: nat, p: nat)
    requires p > 0
    ensures Quotient(x * p, p) == x
  {
    if x > 0 {
      OneMore(p, x - 1);
      ExactQuotient(x - 1, p);
    }
  }

  lemma {:induction false} QuotientBounds(a: nat, b: nat)
    requires b > 0
    ensures Quotient(a, b) * b <= a < Quotient(a, b) * b + b
  {
    if a >= b {
      QuotientBounds(a - b, b);
      OneMore(b, Quotient(a - b, b));
    }
  }

  /** The remainder is the only number below `n` that is short of a multiple. */
  lemma RemainderIs(x: nat, n: nat, r: nat, j: nat)
    requires x == r * n + j && j < n
    ensures x % n == j
  {
    var q := x / n;
    assert x == q * n + x % n && x % n < n;
    if q < r {
      Multiples(q, r, n);
    } else if r < q {
      Multiples(r, q, n);
    }
  }

  lemma {:induction false} Multiples(q: nat, r: nat, n: nat)
    requires q < r
    ensures q * n + n <= r * n
  {
    OneMore(n, r - 1);
    if q < r - 1 {
      Multiples(q, r - 1, n);
    }
  }
}

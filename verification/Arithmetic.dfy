/**
 Products and quotients of two variables, by recursion: their laws follow by induction, and the
 solver never meets nonlinear arithmetic outside the two lemmas that tie them to `*` and `/`.
 */
module Arithmetic {
  function Times(a: nat, b: nat): nat {
    if a == 0 then 0 else Times(a - 1, b) + b
  }

  function Quotient(n: nat, d: nat): nat
    requires d > 0
  {
    if n < d then 0 else Quotient(n - d, d) + 1
  }

  lemma {:induction false} TimesIsProduct(a: nat, b: nat)
    ensures Times(a, b) == a * b
  {
    if a > 0 {
      TimesIsProduct(a - 1, b);
      assert (a - 1) * b + b == a * b;
    }
  }

  lemma {:induction false} TimesMono(a: nat, b: nat, c: nat)
    requires a <= b
    ensures Times(a, c) <= Times(b, c)
  {
    if a < b {
      TimesMono(a, b - 1, c);
    }
  }

  lemma {:induction false} TimesPositive(a: nat, b: nat)
    requires b > 0
    ensures a <= Times(a, b)
  {
    if a > 0 {
      TimesPositive(a - 1, b);
    }
  }

  lemma {:induction false} QuotientBounds(n: nat, d: nat)
    requires d > 0
    ensures Times(Quotient(n, d), d) <= n < Times(Quotient(n, d), d) + d
  {
    if n >= d {
      QuotientBounds(n - d, d);
    }
  }

  lemma {:induction false} QuotientUnique(n: nat, d: nat, q: nat)
    requires d > 0 && Times(q, d) <= n < Times(q, d) + d
    ensures Quotient(n, d) == q
  {
    if q > 0 {
      QuotientUnique(n - d, d, q - 1);
    }
  }

  lemma QuotientIsDivision(n: nat, d: nat)
    requires d > 0
    ensures Quotient(n, d) == n / d
  {
    assert n / d * d <= n < n / d * d + d;
    TimesIsProduct(n / d, d);
    QuotientUnique(n, d, n / d);
  }
}

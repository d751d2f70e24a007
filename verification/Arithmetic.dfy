/** Facts about products, quotients and remainders, stated one at a time so that
    the solver never multiplies two unknowns inside a larger proof. */
module Arithmetic {
  function Quotient(n: nat, p: nat): nat
    requires p > 0
  {
    n / p
  }

  function Remainder(n: nat, p: nat): nat
    requires p > 0
  {
    n % p
  }

  lemma MulMono(a: nat, b: nat, c: nat)
    requires a <= b
    ensures a * c <= b * c && c * a <= c * b
  {}

  lemma MulAssoc(a: int, b: int, c: int)
    ensures a * b * c == a * (b * c) && a * (b * c) == b * (a * c)
  {}

  lemma MulAdd(a: int, b: int, c: int)
    ensures (a + b) * c == a * c + b * c && c * (a + b) == c * a + c * b
  {}

  lemma MulPositive(a: int, b: int)
    requires a >= 1 && b >= 1
    ensures a * b >= 1
  {}

  /** Dividing by ten a number whose upper part is a multiple of ten times p. */
  lemma ShiftDigit(q: nat, p: nat, r: nat)
    ensures (q * (10 * p) + r) / 10 == q * p + r / 10 && (q * (10 * p) + r) % 10 == r % 10
  {
    MulAssoc(q, 10, p);
    ShiftTen(q * p, r);
  }

  lemma ShiftTen(x: nat, r: nat)
    ensures (10 * x + r) / 10 == x + r / 10 && (10 * x + r) % 10 == r % 10
  {}

  lemma DivMod(n: nat, p: nat)
    requires p > 0
    ensures n == n / p * p + n % p && n == p * (n / p) + n % p && n % p < p
  {}

  /** Quotient and remainder are determined by their equation. */
  lemma DivModUnique(n: nat, p: nat, q: nat, r: nat)
    requires n == q * p + r && r < p
    ensures n / p == q && n % p == r
  {
    DivMod(n, p);
    var a := n / p;
    if a < q { MulMono(a + 1, q, p); MulAdd(a, 1, p); }
    if q < a { MulMono(q + 1, a, p); MulAdd(q, 1, p); }
  }

  lemma QuotientShrinks(n: nat, p: nat)
    requires 2 <= p <= n
    ensures 1 <= n / p < n && n == n / p * p + n % p
  {
    DivMod(n, p);
    var q := n / p;
    MulMono(2, p, q);
  }
}

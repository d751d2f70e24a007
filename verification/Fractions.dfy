/** Exact rational numbers in lowest terms, as Python's Fraction keeps them. */
module Fractions {
  import opened Arithmetic

  function Gcd(a: nat, b: nat): nat
    decreases b
  {
    if b == 0 then a else Gcd(b, a % b)
  }

  /** The greatest common divisor divides both numbers. */
  lemma {:induction false} GcdDivides(a: nat, b: nat) returns (x: nat, y: nat)
    requires a + b > 0
    ensures Gcd(a, b) >= 1 && a == Gcd(a, b) * x && b == Gcd(a, b) * y
    decreases b
  {
    if b == 0 {
      x, y := 1, 0;
    } else {
      var u, v := GcdDivides(b, a % b);
      var g := Gcd(a, b);
      DivMod(a, b);
      MulAssoc(g, u, a / b);
      MulAdd(u * (a / b), v, g);
      x, y := u * (a / b) + v, u;
    }
  }

  lemma {:induction false} GcdScale(m: nat, a: nat, b: nat)
    requires m >= 1
    ensures Gcd(m * a, m * b) == m * Gcd(a, b)
    decreases b
  {
    if b > 0 {
      DivMod(a, b);
      var q, r := a / b, a % b;
      MulPositive(m, b);
      MulAssoc(m, q, b);
      MulAdd(q * b, r, m);
      ScaledRemainder(m, r, b);
      DivModUnique(m * a, m * b, q, m * r);
      GcdScale(m, b, r);
    }
  }

  lemma ScaledRemainder(m: nat, r: nat, b: nat)
    requires m >= 1 && r < b
    ensures m * r < m * b
  {
    MulMono(r + 1, b, m);
    MulAdd(r, 1, m);
  }

  datatype Fraction = Fraction(num: int, den: nat)

  function Abs(n: int): nat { if n < 0 then -n else n }

  predicate Reduced(f: Fraction) { f.den > 0 && Gcd(Abs(f.num), f.den) == 1 }

  /** The fraction n/d in lowest terms. */
  function Of(n: int, d: nat): Fraction
    requires d > 0
  {
    var g := Gcd(Abs(n), d);
    if g == 0 then Fraction(n, d)
    else Fraction(if n < 0 then -(Abs(n) / g) else Abs(n) / g, d / g)
  }

  lemma DivExact(g: nat, x: nat)
    requires g >= 1
    ensures (g * x) / g == x
  {
    DivModUnique(g * x, g, x, 0);
  }

  /** `Of` is reduced and differs from n/d by a common factor only. */
  lemma OfFactor(n: int, d: nat) returns (g: nat)
    requires d > 0
    ensures g >= 1 && n == g * Of(n, d).num && d == g * Of(n, d).den
    ensures Reduced(Of(n, d))
  {
    var x, y := GcdDivides(Abs(n), d);
    g := Gcd(Abs(n), d);
    DivExact(g, x);
    DivExact(g, y);
    GcdScale(g, x, y);
    OneFactor(g, Gcd(x, y));
    if n < 0 { NegProduct(g, x); }
  }

  lemma OneFactor(g: nat, k: nat)
    requires g >= 1 && g == g * k
    ensures k == 1
  {
    if k >= 2 { MulMono(2, k, g); }
  }

  lemma NegProduct(g: int, x: int)
    ensures -(g * x) == g * -x
  {}

  /** Equal fractions in lowest terms have equal cross products. */
  lemma CrossProducts(n: int, d: nat, m: int, e: nat)
    requires d > 0 && e > 0 && Of(n, d) == Of(m, e)
    ensures n * e == m * d
  {
    var f := Of(n, d);
    var g := OfFactor(n, d);
    var h := OfFactor(m, e);
    FourFactors(g, h, f.num, f.den);
  }

  lemma FourFactors(g: int, h: int, num: int, den: int)
    ensures (g * num) * (h * den) == (h * num) * (g * den)
  {
    MulAssoc(g, num, h * den);
    MulAssoc(num, h, den);
    MulAssoc(g, h, num * den);
    MulAssoc(num, g, den);
    MulAssoc(h, num, g * den);
  }

  /** Common factors disappear: a reduced fraction is found again from any multiple. */
  lemma OfScaled(f: Fraction, m: nat)
    requires Reduced(f) && m >= 1
    ensures f.den * m > 0 && Of(f.num * m, f.den * m) == f
  {
    var a := Abs(f.num);
    MulPositive(f.den, m);
    AbsProduct(f.num, m);
    GcdScale(m, a, f.den);
    DivExact(m, a);
    DivExact(m, f.den);
    ProductSign(f.num, m);
  }

  lemma AbsProduct(n: int, m: nat)
    ensures Abs(n * m) == m * Abs(n)
  {
    NegProduct(m, n);
    ProductSign(n, m);
  }

  lemma ProductSign(n: int, m: nat)
    ensures n >= 0 ==> n * m >= 0
    ensures n < 0 && m >= 1 ==> n * m < 0
  {}

  /** Reduced fractions of equal value are equal. */
  lemma SameValue(a: Fraction, b: Fraction)
    requires Reduced(a) && Reduced(b) && a.num * b.den == b.num * a.den
    ensures a == b
  {
    OfScaled(a, b.den);
    OfScaled(b, a.den);
    assert a.den * b.den == b.den * a.den;
  }

  // ------------------------------------------------------------ arithmetic

  function Value(f: Fraction): real
    requires Reduced(f)
  {
    f.num as real / f.den as real
  }

  function Add(a: Fraction, b: Fraction): (s: Fraction)
    requires Reduced(a) && Reduced(b)
    ensures Reduced(s) && Value(s) == Value(a) + Value(b)
  {
    MulPositive(a.den, b.den);
    OfValue(a.num * b.den + b.num * a.den, a.den * b.den);
    SumValue(a, b);
    Of(a.num * b.den + b.num * a.den, a.den * b.den)
  }

  function Negate(a: Fraction): (s: Fraction)
    requires Reduced(a)
    ensures Reduced(s) && Value(s) == -Value(a)
  {
    NegateValue(a);
    Fraction(-a.num, a.den)
  }

  function Tenth(a: Fraction): (s: Fraction)
    requires Reduced(a)
    ensures Reduced(s) && Value(s) == Value(a) / 10.0
  {
    OfValue(a.num, 10 * a.den);
    TenthOfQuotient(a.num as real, a.den as real);
    Of(a.num, 10 * a.den)
  }

  predicate Less(a: Fraction, b: Fraction) { a.num * b.den < b.num * a.den }

  lemma QuotientUnique(n: real, d: real, v: real)
    requires d != 0.0 && n == v * d
    ensures n / d == v
  {}

  lemma QuotientTimes(n: real, d: real)
    requires d != 0.0
    ensures n / d * d == n
  {}

  lemma NegateValue(a: Fraction)
    requires Reduced(a)
    ensures -(a.num as real) / a.den as real == -Value(a)
    ensures (-a.num) as real == -(a.num as real)
  {
    QuotientTimes(a.num as real, a.den as real);
    QuotientUnique(-(a.num as real), a.den as real, -Value(a));
  }

  lemma TenthOfQuotient(n: real, d: real)
    requires d > 0.0
    ensures n / (10.0 * d) == n / d / 10.0
  {
    QuotientTimes(n, d);
    QuotientUnique(n, 10.0 * d, n / d / 10.0);
  }

  lemma SumOfQuotients(n: real, d: real, m: real, e: real)
    requires d > 0.0 && e > 0.0
    ensures d * e > 0.0 && (n * e + m * d) / (d * e) == n / d + m / e
  {
    var v, w := n / d, m / e;
    QuotientTimes(n, d);
    QuotientTimes(m, e);
    assert n * e == v * (d * e) && m * d == w * (d * e);
    assert (v + w) * (d * e) == v * (d * e) + w * (d * e);
    QuotientUnique(n * e + m * d, d * e, v + w);
  }

  lemma SumValue(a: Fraction, b: Fraction)
    requires Reduced(a) && Reduced(b) && a.den * b.den > 0
    ensures (a.num * b.den + b.num * a.den) as real / (a.den * b.den) as real == Value(a) + Value(b)
  {
    RealProduct(a.num, b.den);
    RealProduct(b.num, a.den);
    RealProduct(a.den, b.den);
    RealSum(a.num * b.den, b.num * a.den);
    SumOfQuotients(a.num as real, a.den as real, b.num as real, b.den as real);
  }

  lemma RealSum(a: int, b: int)
    ensures (a + b) as real == a as real + b as real
  {}

  lemma RealProduct(a: int, b: int)
    ensures (a * b) as real == a as real * b as real
  {}

  lemma OfValue(n: int, d: nat)
    requires d > 0
    ensures Reduced(Of(n, d)) && Value(Of(n, d)) == n as real / d as real
  {
    var g := OfFactor(n, d);
    var f := Of(n, d);
    RealProduct(g, f.num);
    RealProduct(g, f.den);
    CommonFactor(g as real, f.num as real, f.den as real);
  }

  lemma CommonFactor(g: real, n: real, d: real)
    requires g > 0.0 && d > 0.0
    ensures g * d != 0.0 && (g * n) / (g * d) == n / d
  {
    QuotientTimes(n, d);
    assert g * n == n / d * (g * d);
    QuotientUnique(g * n, g * d, n / d);
  }

  /** Comparison by cross multiplication is comparison of values. */
  lemma LessIsLess(a: Fraction, b: Fraction)
    requires Reduced(a) && Reduced(b)
    ensures Less(a, b) <==> Value(a) < Value(b)
  {
    RealProduct(a.num, b.den);
    RealProduct(b.num, a.den);
    CompareQuotients(a.num as real, a.den as real, b.num as real, b.den as real);
  }

  lemma CompareQuotients(n: real, d: real, m: real, e: real)
    requires d > 0.0 && e > 0.0
    ensures n * e < m * d <==> n / d < m / e
  {
    var v, w := n / d, m / e;
    QuotientTimes(n, d);
    QuotientTimes(m, e);
    assert n * e == v * (d * e) && m * d == w * (d * e);
    if v < w { assert (w - v) * (d * e) > 0.0; }
    if v >= w { assert (v - w) * (d * e) >= 0.0; }
  }

  /** Reduced fractions are equal exactly when their values are. */
  lemma EqualIsEqual(a: Fraction, b: Fraction)
    requires Reduced(a) && Reduced(b)
    ensures a == b <==> Value(a) == Value(b)
  {
    if Value(a) == Value(b) {
      LessIsLess(a, b);
      LessIsLess(b, a);
      SameValue(a, b);
    }
  }
}

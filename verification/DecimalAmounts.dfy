/** Amounts of money as canonical decimal text: reading a text as an exact
    fraction, and printing a fraction whose decimal expansion ends. */
module DecimalAmounts {
  import opened Wrappers
  import opened Arithmetic
  import opened DecimalNotation
  import opened Fractions

  // ------------------------------------------------------------ the accepted texts

  /** A text cut at its leading minus sign and its first point. */
  datatype Parts = Parts(negative: bool, whole: string, fraction: Option<string>)

  /** Index of the first point, or the length. */
  function PointAt(s: string): (i: nat)
    ensures i <= |s| && (i < |s| ==> s[i] == '.')
  {
    if s == "" || s[0] == '.' then 0 else 1 + PointAt(s[1..])
  }

  /** The text before the first point, and the text after it if there is one. */
  function Partition(s: string): (string, Option<string>) {
    var at := PointAt(s);
    (s[..at], if at < |s| then Some(s[at + 1..]) else None)
  }

  function Split(s: string): Parts {
    var negative := s != "" && s[0] == '-';
    var (whole, fraction) := Partition(if negative then s[1..] else s);
    Parts(negative, whole, fraction)
  }

  function Join(p: Parts): string {
    (if p.negative then "-" else "") + (p.whole + Tail(p.fraction))
  }

  function Tail(fraction: Option<string>): string { if fraction.Some? then "." + fraction.value else "" }

  /** No leading zeros, no trailing zeros after a point, no empty part, no negative zero. */
  predicate Accepted(p: Parts) {
    && AllDigits(p.whole) && NoLeadingZero(p.whole)
    && (p.fraction.Some? ==> AllDigits(p.fraction.value) && p.fraction.value != "" && p.fraction.value[|p.fraction.value| - 1] != '0')
    && p != Parts(true, "0", None)
  }

  predicate IsAmount(s: string) { Accepted(Split(s)) }

  function Fractional(p: Parts): string { if p.fraction.Some? then p.fraction.value else "" }

  function Scale(p: Parts): nat { |Fractional(p)| }

  function Digits(p: Parts): (d: string)
    ensures Accepted(p) ==> AllDigits(d)
  {
    p.whole + Fractional(p)
  }

  function Signed(negative: bool, n: nat): int { if negative then -(n as int) else n as int }

  function ValueOf(p: Parts): Fraction
    requires Accepted(p)
  {
    Of(Signed(p.negative, NumberOf(Digits(p))), Pow10(Scale(p)))
  }

  /** The exact value of an accepted text. */
  function AmountOf(s: string): Option<Fraction> {
    if IsAmount(s) then Some(ValueOf(Split(s))) else None
  }

  lemma JoinSplit(s: string)
    ensures Join(Split(s)) == s
  {
    var p := Split(s);
    var body := if p.negative then s[1..] else s;
    assert body == p.whole + Tail(p.fraction);
  }

  lemma SplitJoin(p: Parts)
    requires AllDigits(p.whole) && p.whole != ""
    ensures Split(Join(p)) == p
  {
    var body := p.whole + Tail(p.fraction);
    assert IsDigit(p.whole[0]) && body[0] == p.whole[0];
    assert p.negative ==> Join(p)[1..] == body;
    assert !p.negative ==> Join(p) == body;
    PointAfterDigits(p.whole, Tail(p.fraction));
    assert body[..|p.whole|] == p.whole;
    if p.fraction.Some? { assert body[|p.whole| + 1..] == p.fraction.value; }
  }

  lemma {:induction false} PointAfterDigits(w: string, tail: string)
    requires AllDigits(w) && (tail == "" || tail[0] == '.')
    ensures PointAt(w + tail) == |w|
  {
    if w == "" {
      assert w + tail == tail;
    } else {
      assert (w + tail)[1..] == w[1..] + tail;
      assert IsDigit((w + tail)[0]);
      PointAfterDigits(w[1..], tail);
    }
  }

  // ------------------------------------------------------------ reading

  method Money(value: string) returns (amount: Option<Fraction>)
    ensures amount == AmountOf(value)
  {
    if !IsAmount(value) { return None; }
    var (whole, fraction) := Partition(value);
    var part := if fraction.Some? then fraction.value else "";
    PartitionSigned(value);
    WholeAndPart(Split(value));
    var number := ParseInteger(whole + part);
    amount := Some(Of(number, Pow10(|part|)));
  }

  function Sign(negative: bool): string { if negative then "-" else "" }

  /** Cutting the signed text at its point leaves the sign on the whole part. */
  lemma PartitionSigned(s: string)
    ensures Partition(s) == (Sign(Split(s).negative) + Split(s).whole, Split(s).fraction)
  {
    if s != "" && s[0] == '-' {
      assert s == "-" + s[1..];
      PartitionAfterMinus(s[1..]);
    } else {
      assert Sign(false) + Split(s).whole == Split(s).whole;
    }
  }

  lemma PartitionAfterMinus(body: string)
    ensures Partition("-" + body) == ("-" + Partition(body).0, Partition(body).1)
  {
    var s, at := "-" + body, PointAt(body);
    assert s[1..] == body;
    assert PointAt(s) == 1 + at;
    assert s[..1 + at] == "-" + body[..at];
    assert at < |body| ==> s[1 + at + 1..] == body[at + 1..];
  }

  lemma WholeAndPart(p: Parts)
    requires Accepted(p)
    ensures IsIntegerText(Sign(p.negative) + p.whole + Fractional(p))
    ensures IntegerOf(Sign(p.negative) + p.whole + Fractional(p)) == Signed(p.negative, NumberOf(Digits(p)))
  {
    var text := Sign(p.negative) + p.whole + Fractional(p);
    if p.negative {
      assert text[0] == '-' && text[1..] == Digits(p);
    } else {
      assert text == Digits(p);
      assert IsDigit(text[0]);
    }
  }

  // ------------------------------------------------------------ one text for one value

  /** n divided by ten to the k, written out. */
  function Notation(negative: bool, n: nat, k: nat): Parts {
    Parts(negative, Plain(Quotient(n, Pow10(k))), if k == 0 then None else Some(Padded(Remainder(n, Pow10(k)), k)))
  }

  predicate Canonical(negative: bool, n: nat, k: nat) { (k > 0 ==> n % 10 != 0) && (negative ==> n > 0) }

  /** Every accepted text is the notation of its digits at its scale ... */
  lemma AcceptedIsNotation(p: Parts)
    requires Accepted(p)
    ensures Canonical(p.negative, NumberOf(Digits(p)), Scale(p))
    ensures p == Notation(p.negative, NumberOf(Digits(p)), Scale(p))
  {
    var w, f := p.whole, Fractional(p);
    var n := NumberOf(w + f);
    NumberOfConcat(w, f);
    NumberOfBound(f);
    DivModUnique(n, Pow10(|f|), NumberOf(w), NumberOf(f));
    PlainNumberOf(w);
    PaddedNumberOf(f);
    if p.fraction.Some? {
      LastDigit(w + f);
    } else {
      assert w + f == w;
      if p.negative { NumberPositive(w); }
    }
  }

  lemma LastDigit(s: string)
    requires AllDigits(s) && s != "" && s[|s| - 1] != '0'
    ensures NumberOf(s) % 10 != 0
  {
    ShiftTen(NumberOf(s[..|s| - 1]), DigitValue(s[|s| - 1]));
  }

  /** ... and every canonical notation is accepted and shows its digits and scale. */
  lemma NotationAccepted(negative: bool, n: nat, k: nat)
    requires Canonical(negative, n, k)
    ensures var p := Notation(negative, n, k);
      && Accepted(p) && Scale(p) == k && NumberOf(Digits(p)) == n && p.whole != ""
  {
    var q, r := Quotient(n, Pow10(k)), Remainder(n, Pow10(k));
    DivMod(n, Pow10(k));
    PlainIsDigits(q);
    PaddedIsDigits(r, k);
    NumberOfPlain(q);
    NumberOfPadded(r, k);
    NumberOfConcat(Plain(q), Padded(r, k));
    if k > 0 { PaddedLastDigit(n, k); } else { assert Plain(q) + "" == Plain(q); }
  }

  lemma {:induction false} NumberOfPadded(n: nat, k: nat)
    requires n < Pow10(k)
    ensures AllDigits(Padded(n, k)) && NumberOf(Padded(n, k)) == n
  {
    PaddedIsDigits(n, k);
    if k > 0 {
      NumberOfPadded(n / 10, k - 1);
      assert Padded(n, k)[..k - 1] == Padded(n / 10, k - 1);
      DigitRoundTrip(n % 10);
    }
  }

  lemma PaddedLastDigit(n: nat, k: nat)
    requires k > 0 && n % 10 != 0
    ensures var r := Remainder(n, Pow10(k)); |Padded(r, k)| == k && Padded(r, k)[k - 1] != '0'
  {
    var q, r := Quotient(n, Pow10(k)), Remainder(n, Pow10(k));
    PaddedIsDigits(r, k);
    DivMod(n, Pow10(k));
    ShiftDigit(q, Pow10(k - 1), r);
    assert Padded(r, k)[k - 1] == DigitChar(r % 10);
  }

  /** Two accepted texts with the same value are the same text. */
  lemma AmountOfIsInjective(s: string, t: string)
    requires IsAmount(s) && AmountOf(s) == AmountOf(t)
    ensures s == t
  {
    var p, q := Split(s), Split(t);
    AcceptedIsNotation(p);
    AcceptedIsNotation(q);
    EqualValues(p.negative, NumberOf(Digits(p)), Scale(p), q.negative, NumberOf(Digits(q)), Scale(q));
    JoinSplit(s);
    JoinSplit(t);
  }

  lemma EqualValues(a: bool, n: nat, j: nat, b: bool, m: nat, k: nat)
    requires Canonical(a, n, j) && Canonical(b, m, k)
    requires Of(Signed(a, n), Pow10(j)) == Of(Signed(b, m), Pow10(k))
    ensures a == b && n == m && j == k
  {
    CrossProducts(Signed(a, n), Pow10(j), Signed(b, m), Pow10(k));
    EqualSigned(a, n, Pow10(j), b, m, Pow10(k));
    if j <= k { ScaleIsUnique(n, j, m, k); } else { ScaleIsUnique(m, k, n, j); }
  }

  lemma EqualSigned(a: bool, n: nat, p: nat, b: bool, m: nat, q: nat)
    requires p >= 1 && q >= 1 && (a ==> n > 0) && (b ==> m > 0)
    requires Signed(a, n) * q == Signed(b, m) * p
    ensures a == b && n * q == m * p
  {
    SignedProduct(a, n, q);
    SignedProduct(b, m, p);
  }

  lemma SignedProduct(negative: bool, n: nat, p: nat)
    requires p >= 1
    ensures Signed(negative, n) * p == Signed(negative, n * p)
    ensures n * p == 0 <==> n == 0
  {
    NegProduct(p, n);
    if n > 0 { MulPositive(n, p); }
  }

  /** Digits that do not end in zero determine the scale. */
  lemma ScaleIsUnique(n: nat, j: nat, m: nat, k: nat)
    requires j <= k && n * Pow10(k) == m * Pow10(j) && (k > 0 ==> m % 10 != 0)
    ensures j == k && n == m
  {
    var d := k - j;
    Pow10Sum(d, j);
    MulAssoc(n, Pow10(d), Pow10(j));
    CancelFactor(n * Pow10(d), m, Pow10(j));
    if d > 0 {
      ShiftDigit(n, Pow10(d - 1), 0);
    }
  }

  lemma CancelFactor(a: nat, b: nat, p: nat)
    requires p >= 1 && a * p == b * p
    ensures a == b
  {
    if a < b { MulMono(a + 1, b, p); MulAdd(a, 1, p); }
    if b < a { MulMono(b + 1, a, p); MulAdd(b, 1, p); }
  }

  // ------------------------------------------------------------ printing

  function Pow(b: nat, e: nat): (p: nat)
    ensures b >= 1 ==> p >= 1
  {
    if e == 0 then 1 else b * Pow(b, e - 1)
  }

  /** The decimal expansion of a fraction with this denominator ends. */
  ghost predicate Terminating(den: nat) { exists k: nat :: DividesPow10(den, k) }

  ghost predicate DividesPow10(den: nat, k: nat) { exists q: nat :: Pow10(k) == den * q }

  function RStrip(s: string, c: char): string {
    if s != "" && s[|s| - 1] == c then RStrip(s[..|s| - 1], c) else s
  }

  /** Removes one prime from a number, counting how often it divides. */
  method StripFactor(n: nat, prime: nat) returns (rest: nat, count: nat)
    requires n > 0 && prime >= 2
    ensures rest > 0 && rest % prime != 0 && n == rest * Pow(prime, count)
  {
    rest, count := n, 0;
    while rest % prime == 0
      invariant rest > 0 && n == rest * Pow(prime, count)
      decreases rest
    {
      ghost var before := rest;
      DivMod(rest, prime);
      QuotientIsLess(rest, prime);
      rest, count := rest / prime, count + 1;
      MulAssoc(rest, prime, Pow(prime, count - 1));
    }
  }

  lemma QuotientIsLess(n: nat, p: nat)
    requires n > 0 && p >= 2 && n % p == 0
    ensures 1 <= n / p < n
  {
    DivMod(n, p);
    if n < p { DivModUnique(n, p, 0, n); }
    QuotientShrinks(n, p);
  }

  lemma {:induction false} PowSum(b: nat, i: nat, j: nat)
    ensures Pow(b, i + j) == Pow(b, i) * Pow(b, j)
  {
    if i > 0 {
      PowSum(b, i - 1, j);
      MulAssoc(b, Pow(b, i - 1), Pow(b, j));
    }
  }

  lemma {:induction false} TenIsTwoTimesFive(k: nat)
    ensures Pow10(k) == Pow(5, k) * Pow(2, k)
  {
    if k > 0 {
      TenIsTwoTimesFive(k - 1);
      var p, q := Pow(5, k - 1), Pow(2, k - 1);
      MulAssoc(5, p, 2 * q);
      MulAssoc(p, 2, q);
    }
  }

  /** A divisor of an odd number is odd. */
  lemma StaysOdd(a: nat, b: nat, f: nat)
    requires a == b * f && a % 2 != 0
    ensures b % 2 != 0
  {
    if b % 2 == 0 { MulAssoc(2, b / 2, f); }
  }

  lemma OddFactor(r: nat, q: nat)
    requires r % 2 != 0 && (r * q) % 2 == 0
    ensures q % 2 == 0
  {
    var a := r / 2;
    MulAdd(2 * a, 1, q);
    MulAssoc(2, a, q);
    assert r * q == 2 * (a * q) + q;
  }

  lemma FiveFactor(r: nat, q: nat)
    requires r % 5 != 0 && (r * q) % 5 == 0
    ensures q % 5 == 0
  {
    var a, b, n := r / 5, r % 5, r * q / 5;
    DivMod(r, 5);
    DivMod(r * q, 5);
    MulAdd(5 * a, b, q);
    MulAssoc(5, a, q);
    SmallFiveFactor(b, q, n - a * q);
  }

  /** Some multiple of b is one more than a multiple of five. */
  lemma SmallFiveFactor(b: nat, q: nat, z: int)
    requires 1 <= b <= 4 && b * q == 5 * z
    ensures q % 5 == 0
  {
    if b == 1 {
      FiveTimes(q, z);
    } else if b == 2 {
      assert 2 * q == 5 * z;
      FiveTimes(q, 3 * z - q);
    } else if b == 3 {
      assert 3 * q == 5 * z;
      FiveTimes(q, 2 * z - q);
    } else {
      assert 4 * q == 5 * z;
      FiveTimes(q, q - z);
    }
  }

  lemma FiveTimes(q: nat, x: int)
    requires q == 5 * x
    ensures q % 5 == 0
  {}

  /** A number sharing no factor with ten divides a power of ten only if it is one. */
  lemma {:induction false} CoprimeToTen(r: nat, k: nat, q: nat)
    requires r % 2 != 0 && r % 5 != 0 && Pow10(k) == r * q
    ensures r == 1
  {
    if k == 0 {
      if r >= 2 { MulMono(2, r, q); }
    } else {
      TenfoldFactor(r, Pow10(k - 1), q);
      CoprimeToTen(r, k - 1, q / 10);
    }
  }

  lemma TenfoldFactor(r: nat, p: nat, q: nat)
    requires r % 2 != 0 && r % 5 != 0 && 10 * p == r * q
    ensures p == r * (q / 10)
  {
    OddFactor(r, q) by { TenTimesEven(p, r * q); }
    FiveFactor(r, q) by { TenTimesEven(p, r * q); }
    TenDivides(q);
    CancelTen(r, p, q / 10, q);
  }

  lemma TenTimesEven(p: nat, n: nat)
    requires 10 * p == n
    ensures n % 2 == 0 && n % 5 == 0
  {
    FiveTimes(n, 2 * p);
  }

  lemma TenDivides(q: nat)
    requires q % 2 == 0 && q % 5 == 0
    ensures q == 10 * (q / 10)
  {
    DivMod(q, 2);
    DivMod(q, 5);
    TenTimes(q, q / 2 - 2 * (q / 5));
  }

  lemma TenTimes(q: nat, x: int)
    requires q == 10 * x
    ensures q == 10 * (q / 10)
  {}

  lemma CancelTen(r: nat, p: nat, z: nat, q: nat)
    requires q == 10 * z && 10 * p == r * q
    ensures p == r * z
  {
    MulAssoc(10, r, z);
  }

  lemma NeverTerminates(den: nat, rest: nat, f: nat)
    requires den == rest * f && rest % 2 != 0 && rest % 5 != 0 && rest != 1
    ensures !Terminating(den)
  {
    if Terminating(den) {
      var k: nat :| DividesPow10(den, k);
      var q: nat :| Pow10(k) == den * q;
      MulAssoc(rest, f, q);
      CoprimeToTen(rest, k, f * q);
    }
  }

  /** Scaling both prime parts up to the larger exponent gives a power of ten. */
  lemma CofactorCompletes(den: nat, twos: nat, fives: nat, scale: nat)
    requires den == Pow(5, fives) * Pow(2, twos) && twos <= scale && fives <= scale
    ensures Pow10(scale) == den * (Pow(2, scale - twos) * Pow(5, scale - fives))
    ensures Terminating(den)
  {
    var a, b, c, d := Pow(5, fives), Pow(2, twos), Pow(2, scale - twos), Pow(5, scale - fives);
    TenIsTwoTimesFive(scale);
    PowSum(2, scale - twos, twos);
    PowSum(5, scale - fives, fives);
    FourFactors(a, c, d, b);
    assert (d * a) * (c * b) == (a * b) * (c * d) by { Rearrange(a, b, c, d); }
    assert DividesPow10(den, scale);
  }

  lemma Rearrange(a: nat, b: nat, c: nat, d: nat)
    ensures (d * a) * (c * b) == (a * b) * (c * d)
  {
    MulAssoc(d, a, c * b);
    MulAssoc(a, c, b);
    MulAssoc(a, b, c * d);
    MulAssoc(b, c, d);
    MulAssoc(c, b, d);
    MulAssoc(d, a, b * c);
  }

  /** At the smallest scale the digits do not end in zero. */
  lemma ScaledDigits(value: Fraction, twos: nat, fives: nat, scale: nat)
    requires Reduced(value) && value.den == Pow(5, fives) * Pow(2, twos)
    requires scale == if twos >= fives then twos else fives
    ensures scale > 0 ==> Abs(value.num * (Pow(2, scale - twos) * Pow(5, scale - fives))) % 10 != 0
  {
    AbsProduct(value.num, Pow(2, scale - twos) * Pow(5, scale - fives));
    if scale > 0 {
      if scale == twos {
        EvenPower(twos, Pow(5, fives));
        PowNotDivisible(5, scale - fives, 2);
        KeepsFactorOut(Abs(value.num), value.den, 2, Pow(5, scale - fives));
      } else {
        FivefoldPower(fives, Pow(2, twos));
        PowNotDivisible(2, scale - twos, 5);
        KeepsFactorOut(Abs(value.num), value.den, 5, Pow(2, scale - twos));
      }
    }
  }

  lemma EvenPower(e: nat, c: nat)
    requires e > 0
    ensures (c * Pow(2, e)) % 2 == 0
  {
    MulAssoc(c, 2, Pow(2, e - 1));
  }

  lemma FivefoldPower(e: nat, c: nat)
    requires e > 0
    ensures (Pow(5, e) * c) % 5 == 0
  {
    MulAssoc(5, Pow(5, e - 1), c);
    FiveTimes(Pow(5, e) * c, Pow(5, e - 1) * c);
  }

  lemma KeepsFactorOut(n: nat, d: nat, p: nat, c: nat)
    requires d > 0 && Gcd(n, d) == 1 && (p == 2 || p == 5) && d % p == 0 && c % p != 0
    ensures (c * n) % 10 != 0
  {
    hide Gcd;
    ReducedNotBoth(n, d, p);
    if p == 2 { OddTimesOdd(c, n, c * n); } else { NotFivefold(c, n, c * n); }
  }

  lemma OddTimesOdd(c: nat, n: nat, m: nat)
    requires c % 2 != 0 && n % 2 != 0 && m == c * n
    ensures m % 10 != 0
  {
    if m % 10 == 0 {
      TenTimesEven(m / 10, m);
      OddFactor(c, n);
    }
  }

  lemma NotFivefold(c: nat, n: nat, m: nat)
    requires c % 5 != 0 && n % 5 != 0 && m == c * n
    ensures m % 10 != 0
  {
    if m % 10 == 0 {
      TenTimesEven(m / 10, m);
      FiveFactor(c, n);
    }
  }

  /** A reduced fraction's parts do not share the factor p. */
  lemma ReducedNotBoth(n: nat, d: nat, p: nat)
    requires d > 0 && Gcd(n, d) == 1 && p >= 2 && d % p == 0
    ensures n % p != 0
  {
    if n % p == 0 {
      DivMod(n, p);
      DivMod(d, p);
      GcdScale(p, n / p, d / p);
      var x, y := GcdDivides(n / p, d / p);
      MulPositive(p, Gcd(n / p, d / p));
      MulMono(2, p, Gcd(n / p, d / p));
    }
  }

  lemma {:induction false} PowNotDivisible(b: nat, e: nat, p: nat)
    requires (b == 5 && p == 2) || (b == 2 && p == 5)
    ensures Pow(b, e) % p != 0
  {
    if e > 0 {
      PowNotDivisible(b, e - 1, p);
      if Pow(b, e) % p == 0 {
        if p == 2 { OddFactor(5, Pow(b, e - 1)); } else { FiveFactor(2, Pow(b, e - 1)); }
      }
    }
  }

  /** The digits of n with the point `scale` digits from the right. */
  method DigitsWithPoint(n: nat, scale: nat) returns (text: string)
    requires scale > 0 ==> n % 10 != 0
    ensures text == Join(Notation(false, n, scale))
  {
    var digits := IntegerText(n);
    digits := Zfill(digits, scale + 1);
    ZfillSplits(n, scale);
    var p := Notation(false, n, scale);
    assert digits == p.whole + Fractional(p);
    if scale > 0 {
      PaddedLastDigit(n, scale);
      text := digits[..|digits| - scale] + "." + digits[|digits| - scale..];
      assert text == p.whole + Tail(p.fraction);
      assert text[|text| - 1] == Fractional(p)[scale - 1];
      PaddedIsDigits(Remainder(n, Pow10(scale)), scale);
      text := RStrip(RStrip(text, '0'), '.');
    } else {
      text := digits;
    }
    assert text == Join(p);
  }

  lemma {:induction false} PaddedWider(n: nat, k: nat)
    requires n < Pow10(k)
    ensures Padded(n, k + 1) == "0" + Padded(n, k)
  {
    if k > 0 { PaddedWider(n / 10, k - 1); }
  }

  lemma ZfillSplits(n: nat, scale: nat)
    ensures var p := Notation(false, n, scale);
      Zfill(Plain(n), scale + 1) == p.whole + Fractional(p) && |Fractional(p)| == scale && |p.whole| >= 1
  {
    var q, r := Quotient(n, Pow10(scale)), Remainder(n, Pow10(scale));
    DivMod(n, Pow10(scale));
    PaddedIsDigits(r, scale);
    PlainIsDigits(q);
    assert Fractional(Notation(false, n, scale)) == Padded(r, scale);
    ZfillPlain(n, q, r, scale);
  }

  lemma ZfillPlain(n: nat, q: nat, r: nat, k: nat)
    requires n == q * Pow10(k) + r && r < Pow10(k)
    ensures Zfill(Plain(n), k + 1) == Plain(q) + Padded(r, k)
  {
    if q >= 1 {
      PlainSplit(n, q, r, k);
      PaddedIsDigits(r, k);
      PlainIsDigits(q);
    } else {
      ZfillIsPadded(r, k + 1);
      PaddedWider(r, k);
    }
  }

  /** The digits and scale chosen for a fraction show exactly its value. */
  lemma ShowsValue(value: Fraction, twos: nat, fives: nat, scale: nat, number: int)
    requires Reduced(value) && value.den == Pow(5, fives) * Pow(2, twos)
    requires scale == if twos >= fives then twos else fives
    requires number == value.num * (Pow(2, scale - twos) * Pow(5, scale - fives))
    ensures Terminating(value.den) && Canonical(number < 0, Abs(number), scale)
    ensures AmountOf(Join(Notation(number < 0, Abs(number), scale))) == Some(value)
  {
    CofactorCompletes(value.den, twos, fives, scale);
    ScaledDigits(value, twos, fives, scale);
    MulPositive(Pow(2, scale - twos), Pow(5, scale - fives));
    OfScaled(value, Pow(2, scale - twos) * Pow(5, scale - fives));
    ShowsNotation(number, scale);
  }

  lemma ShowsNotation(number: int, scale: nat)
    requires Canonical(number < 0, Abs(number), scale)
    ensures AmountOf(Join(Notation(number < 0, Abs(number), scale))) == Some(Of(number, Pow10(scale)))
  {
    NotationAccepted(number < 0, Abs(number), scale);
    SplitJoin(Notation(number < 0, Abs(number), scale));
  }

  lemma Strips(den: nat, odd: nat, rest: nat, twos: nat, fives: nat)
    requires den == odd * Pow(2, twos) && odd % 2 != 0 && odd == rest * Pow(5, fives) && rest % 5 != 0
    ensures rest != 1 ==> !Terminating(den)
    ensures rest == 1 ==> den == Pow(5, fives) * Pow(2, twos)
  {
    StaysOdd(odd, rest, Pow(5, fives));
    MulAssoc(rest, Pow(5, fives), Pow(2, twos));
    if rest != 1 { NeverTerminates(den, rest, Pow(5, fives) * Pow(2, twos)); }
  }

  /** Succeeds exactly when the expansion ends, and then prints the one accepted
      text whose value is the given fraction. */
  method Decimal(value: Fraction) returns (text: Option<string>)
    requires Reduced(value)
    ensures text.Some? <==> Terminating(value.den)
    ensures text.Some? ==> AmountOf(text.value) == Some(value)
  {
    var odd, twos := StripFactor(value.den, 2);
    var rest, fives := StripFactor(odd, 5);
    Strips(value.den, odd, rest, twos, fives);
    if rest != 1 { return None; }
    var scale := if twos >= fives then twos else fives;
    var number := value.num * Pow(2, scale - twos) * Pow(5, scale - fives);
    MulAssoc(value.num, Pow(2, scale - twos), Pow(5, scale - fives));
    ShowsValue(value, twos, fives, scale, number);
    var digits := DigitsWithPoint(Abs(number), scale);
    JoinSign(number < 0, Abs(number), scale);
    text := Some(Sign(number < 0) + digits);
  }

  lemma JoinSign(negative: bool, n: nat, k: nat)
    ensures Join(Notation(negative, n, k)) == Sign(negative) + Join(Notation(false, n, k))
  {}

  /** Reading what was printed and printing what was read are both the identity. */
  lemma RoundTrip(s: string, x: Fraction, t: string)
    requires AmountOf(s) == Some(x) && AmountOf(t) == Some(x)
    ensures s == t && Reduced(x) && Terminating(x.den)
  {
    AmountOfIsInjective(s, t);
    var n, k := Signed(Split(s).negative, NumberOf(Digits(Split(s)))), Scale(Split(s));
    var g := OfFactor(n, Pow10(k));
    assert g * x.den == x.den * g;
    assert DividesPow10(x.den, k);
  }
}

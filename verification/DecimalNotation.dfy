/** Decimal notation of integers, and its printing and parsing in chunks of a
    thousand digits. */
module DecimalNotation {
  import opened Arithmetic

  function Pow10(k: nat): (p: nat)
    ensures p >= 1
  {
    if k == 0 then 1 else 10 * Pow10(k - 1)
  }

  function DigitChar(d: nat): char
    requires d < 10
  {
    ('0' as int + d) as char
  }

  predicate IsDigit(c: char) { '0' <= c <= '9' }

  predicate AllDigits(s: string) { forall i :: 0 <= i < |s| ==> IsDigit(s[i]) }

  function DigitValue(c: char): nat
    requires IsDigit(c)
  {
    c as int - '0' as int
  }

  /** Ordinary decimal notation, without leading zeros. */
  function Plain(n: nat): string {
    if n < 10 then [DigitChar(n)] else Plain(n / 10) + [DigitChar(n % 10)]
  }

  function PlainInt(value: int): string {
    if value < 0 then "-" + Plain(-value) else Plain(value)
  }

  /** The number a string of digits denotes. */
  function NumberOf(s: string): nat
    requires AllDigits(s)
  {
    if s == "" then 0 else 10 * NumberOf(s[..|s| - 1]) + DigitValue(s[|s| - 1])
  }

  /** The last k digits of n, with leading zeros. */
  function Padded(n: nat, k: nat): string {
    if k == 0 then "" else Padded(n / 10, k - 1) + [DigitChar(n % 10)]
  }

  function Zeros(k: nat): string { if k == 0 then "" else "0" + Zeros(k - 1) }

  /** Python's `zfill` on a string of digits. */
  function Zfill(s: string, width: nat): string {
    if |s| >= width then s else Zeros(width - |s|) + s
  }

  // ------------------------------------------------------------ lemmas about notation

  lemma DigitRoundTrip(d: nat)
    requires d < 10
    ensures IsDigit(DigitChar(d)) && DigitValue(DigitChar(d)) == d
  {}

  lemma PlainIsDigits(n: nat)
    ensures AllDigits(Plain(n)) && |Plain(n)| >= 1
    ensures n > 0 ==> Plain(n)[0] != '0'
  {}

  lemma PaddedIsDigits(n: nat, k: nat)
    ensures AllDigits(Padded(n, k)) && |Padded(n, k)| == k
  {}

  lemma {:induction false} Pow10Sum(j: nat, k: nat)
    ensures Pow10(j + k) == Pow10(j) * Pow10(k)
  {
    if j > 0 {
      Pow10Sum(j - 1, k);
      MulAssoc(10, Pow10(j - 1), Pow10(k));
    }
  }

  lemma PlainStep(n: nat, d: nat)
    requires n >= 1 && d < 10
    ensures Plain(10 * n + d) == Plain(n) + [DigitChar(d)]
  {
    ShiftTen(n, d);
  }

  lemma DigitOf(c: char)
    requires IsDigit(c)
    ensures DigitChar(DigitValue(c)) == c
  {}

  /** Printing then reading gives the number back. */
  lemma {:induction false} NumberOfPlain(n: nat)
    ensures AllDigits(Plain(n)) && NumberOf(Plain(n)) == n
  {
    PlainIsDigits(n);
    if n >= 10 {
      NumberOfPlain(n / 10);
      assert Plain(n)[..|Plain(n)| - 1] == Plain(n / 10);
    }
  }

  /** Splitting a number at its k-th digit splits its notation. */
  lemma {:induction false} PlainSplit(n: nat, q: nat, r: nat, k: nat)
    requires n == q * Pow10(k) + r && q >= 1 && r < Pow10(k)
    ensures Plain(n) == Plain(q) + Padded(r, k)
  {
    if k > 0 {
      var p := Pow10(k - 1);
      ShiftDigit(q, p, r);
      MulPositive(q, p);
      PlainSplit(n / 10, q, r / 10, k - 1);
      PlainStep(n / 10, n % 10);
    }
  }

  lemma ZerosIsPadded(k: nat)
    ensures Padded(0, k) == Zeros(k) && |Zeros(k)| == k
  {
    if k > 0 {
      ZerosIsPadded(k - 1);
      ZerosEnd(k);
    }
  }

  lemma {:induction false} ZerosEnd(k: nat)
    requires k > 0
    ensures Zeros(k) == Zeros(k - 1) + "0"
  {
    if k > 1 { ZerosEnd(k - 1); }
  }

  /** A number of at most k digits, printed and filled up to k, shows exactly its last k digits. */
  lemma {:induction false} ZfillIsPadded(r: nat, k: nat)
    requires k >= 1 && r < Pow10(k)
    ensures Zfill(Plain(r), k) == Padded(r, k)
  {
    if r < 10 {
      ZerosIsPadded(k - 1);
      assert r / 10 == 0;
      assert Zfill(Plain(r), k) == Zeros(k - 1) + Plain(r);
    } else {
      assert k >= 2 && r / 10 < Pow10(k - 1);
      ZfillIsPadded(r / 10, k - 1);
      assert Zfill(Plain(r), k) == Zfill(Plain(r / 10), k - 1) + [DigitChar(r % 10)];
    }
  }

  lemma {:induction false} NumberOfConcat(a: string, b: string)
    requires AllDigits(a) && AllDigits(b)
    ensures AllDigits(a + b) && NumberOf(a + b) == NumberOf(a) * Pow10(|b|) + NumberOf(b)
  {
    if b == "" {
      assert a + b == a;
    } else {
      var c := b[..|b| - 1];
      assert (a + b)[..|a + b| - 1] == a + c;
      NumberOfConcat(a, c);
      MulAssoc(10, NumberOf(a), Pow10(|c|));
    }
  }

  lemma {:induction false} NumberOfBound(s: string)
    requires AllDigits(s)
    ensures NumberOf(s) < Pow10(|s|)
  {
    if s != "" { NumberOfBound(s[..|s| - 1]); }
  }

  lemma PaddedStep(n: nat, d: nat, k: nat)
    requires d < 10
    ensures Padded(10 * n + d, k + 1) == Padded(n, k) + [DigitChar(d)]
  {
    ShiftTen(n, d);
  }

  lemma {:induction false} PaddedNumberOf(s: string)
    requires AllDigits(s)
    ensures Padded(NumberOf(s), |s|) == s
  {
    if s != "" {
      var c, last := s[..|s| - 1], s[|s| - 1];
      PaddedNumberOf(c);
      PaddedStep(NumberOf(c), DigitValue(last), |c|);
      DigitOf(last);
      assert s == c + [last];
    }
  }

  predicate NoLeadingZero(s: string) { s == "0" || (s != "" && s[0] != '0') }

  /** Reading then printing gives the text back, unless it had a leading zero. */
  lemma {:induction false} PlainNumberOf(s: string)
    requires AllDigits(s) && NoLeadingZero(s)
    ensures Plain(NumberOf(s)) == s
  {
    if |s| == 1 {
      DigitOf(s[0]);
      assert s[..0] == "" && NumberOf(s) == DigitValue(s[0]);
    } else {
      var c, last := s[..|s| - 1], s[|s| - 1];
      assert c[0] == s[0];
      NumberPositive(c);
      PlainNumberOf(c);
      PlainStep(NumberOf(c), DigitValue(last));
      DigitOf(last);
      assert s == c + [last];
    }
  }

  lemma {:induction false} NumberPositive(s: string)
    requires AllDigits(s) && s != "" && s[0] != '0'
    ensures NumberOf(s) > 0
  {
    if |s| > 1 { NumberPositive(s[..|s| - 1]); }
  }

  // ------------------------------------------------------------ chunked printing and parsing

  /** Digits per chunk. */
  const CHUNK: nat := 1000

  function Concat(parts: seq<string>): string { if parts == [] then "" else parts[0] + Concat(parts[1..]) }

  function Reversed(parts: seq<string>): seq<string> {
    if parts == [] then [] else Reversed(parts[1..]) + [parts[0]]
  }

  lemma {:induction false} ReversedAppend(parts: seq<string>, part: string)
    ensures Reversed(parts + [part]) == [part] + Reversed(parts)
  {
    if parts != [] {
      assert (parts + [part])[1..] == parts[1..] + [part];
      ReversedAppend(parts[1..], part);
    }
  }

  /** Rendering by repeated division agrees with plain notation, for every integer. */
  method IntegerText(value: int) returns (text: string)
    ensures text == PlainInt(value)
  {
    text := IntegerTextInChunks(value, CHUNK);
  }

  method IntegerTextInChunks(value: int, chunk: nat) returns (text: string)
    requires chunk >= 1
    ensures text == PlainInt(value)
    decreases if value < 0 then 1 else 0
  {
    if value < 0 {
      var positive := IntegerTextInChunks(-value, chunk);
      return "-" + positive;
    }
    var parts: seq<string> := [];
    var rest: nat := value;
    while rest >= Pow10(chunk)
      invariant Plain(value) == Plain(rest) + Concat(Reversed(parts))
    {
      var part := rest % Pow10(chunk);
      QuotientShrinks(rest, Pow10(chunk));
      PlainSplit(rest, rest / Pow10(chunk), part, chunk);
      ZfillIsPadded(part, chunk);
      ReversedAppend(parts, Zfill(Plain(part), chunk));
      parts := parts + [Zfill(Plain(part), chunk)];
      rest := rest / Pow10(chunk);
    }
    text := Plain(rest) + Concat(Reversed(parts));
  }

  predicate IsIntegerText(s: string) {
    if s != "" && s[0] == '-' then AllDigits(s[1..]) && |s| > 1 else AllDigits(s) && s != ""
  }

  /** The integer an optional minus sign and digits denote. */
  function IntegerOf(s: string): int
    requires IsIntegerText(s)
  {
    if s[0] == '-' then -(NumberOf(s[1..]) as int) else NumberOf(s)
  }

  function StripMinus(s: string): string { if s != "" && s[0] == '-' then StripMinus(s[1..]) else s }

  lemma {:induction false} StripMinusDigits(s: string)
    requires IsIntegerText(s)
    ensures StripMinus(s) == if s[0] == '-' then s[1..] else s
  {}

  /** Reading chunk by chunk gives the number the whole text denotes. */
  method ParseInteger(value: string) returns (number: int)
    requires IsIntegerText(value)
    ensures number == IntegerOf(value)
  {
    number := ParseIntegerInChunks(value, CHUNK);
  }

  method ParseIntegerInChunks(value: string, chunk: nat) returns (number: int)
    requires IsIntegerText(value) && chunk >= 1
    ensures number == IntegerOf(value)
  {
    var sign := if value[0] == '-' then -1 else 1;
    StripMinusDigits(value);
    var digits := StripMinus(value);
    var total: nat := 0;
    var start: nat := 0;
    while start < |digits|
      invariant start <= |digits| && total == NumberOf(digits[..start])
    {
      var next := if start + chunk <= |digits| then start + chunk else |digits|;
      var part := digits[start..next];
      NumberOfConcat(digits[..start], part);
      assert digits[..next] == digits[..start] + part;
      total := total * Pow10(|part|) + NumberOf(part);
      start := next;
    }
    assert digits[..|digits|] == digits;
    number := sign * total;
  }

  /** Any integer survives printing and parsing, and distinct integers print differently. */
  lemma IntegerRoundTrip(value: int)
    ensures IsIntegerText(PlainInt(value)) && IntegerOf(PlainInt(value)) == value
  {
    var n := if value < 0 then -value else value;
    NumberOfPlain(n);
    PlainIsDigits(n);
    if value < 0 { assert PlainInt(value)[1..] == Plain(n); }
    else { assert IsDigit(Plain(n)[0]); }
  }
}

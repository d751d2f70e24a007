/** Canonical JSON text, used as a test of structural equality: printing, the
    parse trees behind a text, and the decoder hook that rejects repeated keys. */
module CanonicalText {
  import opened Wrappers
  import opened Arithmetic
  import opened CodePoints
  import opened DecimalNotation

  /** A JSON-like value; floats are finite, an infinity or NaN is another object. */
  datatype Json =
    | Null
    | Bool(flag: bool)
    | Int(number: int)
    | Float(value: real)
    | Text(text: Str)
    | List(items: seq<Json>)
    | Dict(entries: map<Str, Json>)
    | DictWithOtherKey
    | OtherObject

  predicate IsSurrogate(c: Code) { 0xD800 <= c <= 0xDFFF }

  predicate Scalar(s: Str) { forall i :: 0 <= i < |s| ==> !IsSurrogate(s[i]) }

  /** The values the printer accepts: text must encode as UTF-8, keys need not. */
  predicate Printable(v: Json) {
    match v
    case Null => true
    case Bool(_) => true
    case Int(_) => true
    case Float(_) => false
    case Text(s) => Scalar(s)
    case List(items) => forall i :: 0 <= i < |items| ==> Printable(items[i])
    case Dict(entries) => forall k :: k in entries ==> Printable(entries[k])
    case DictWithOtherKey => false
    case OtherObject => false
  }

  // ------------------------------------------------------------ string literals

  function HexDigit(d: nat): char
    requires d < 16
  {
    if d < 10 then ('0' as int + d) as char else ('a' as int + (d - 10)) as char
  }

  function Hex4(n: nat): string
    requires n < 0x1_0000
  {
    [HexDigit(n / 0x1000), HexDigit(n / 0x100 % 0x10), HexDigit(n / 0x10 % 0x10), HexDigit(n % 0x10)]
  }

  /** The escape of one UTF-16 code unit (section 7 of RFC 8259, ASCII output). */
  function EscapeUnit(c: nat): string
    requires c < 0x1_0000
  {
    if c == 0x22 then "\\\"" else if c == 0x5C then "\\\\"
    else if c == 0x0A then "\\n" else if c == 0x0D then "\\r" else if c == 0x09 then "\\t"
    else if c == 0x0C then "\\f" else if c == 0x08 then "\\b"
    else if 0x20 <= c <= 0x7E then [c as char]
    else "\\u" + Hex4(c)
  }

  function HighSurrogate(c: Code): nat
    requires c >= 0x1_0000
  {
    0xD800 + (c - 0x1_0000) / 0x400
  }

  function LowSurrogate(c: Code): nat
    requires c >= 0x1_0000
  {
    0xDC00 + (c - 0x1_0000) % 0x400
  }

  /** The escape of one code point; beyond the basic plane, a surrogate pair. */
  function Escape(c: Code): string {
    if c < 0x1_0000 then EscapeUnit(c)
    else "\\u" + Hex4(HighSurrogate(c)) + "\\u" + Hex4(LowSurrogate(c))
  }

  function EscapeAll(s: Str): string { if s == [] then "" else Escape(s[0]) + EscapeAll(s[1..]) }

  function Quote(s: Str): string { "\"" + EscapeAll(s) + "\"" }

  // ------------------------------------------------------------ printing

  function Join(parts: seq<string>): string {
    if |parts| == 0 then "" else if |parts| == 1 then parts[0] else parts[0] + "," + Join(parts[1..])
  }

  /** The canonical text, by recursion over the value. */
  ghost function Print(v: Json): string
    requires Printable(v)
  {
    match v
    case Null => "null"
    case Bool(b) => if b then "true" else "false"
    case Int(n) => PlainInt(n)
    case Text(s) => Quote(s)
    case List(items) => "[" + Join(seq(|items|, i requires 0 <= i < |items| => Print(items[i]))) + "]"
    case Dict(entries) =>
      var ks := Sorted(entries.Keys);
      "{" + Join(seq(|ks|, i requires 0 <= i < |ks| => Quote(ks[i]) + ":" + Print(entries[ks[i]]))) + "}"
  }

  /** None stands for the ValueError of an unprintable value. */
  ghost function Canonical(v: Json): Option<string> { if Printable(v) then Some(Print(v)) else None }

  // ------------------------------------------------------------ parse trees

  /** What a parser sees: objects as lists of pairs, in text order. */
  datatype Tree =
    | NullNode
    | BoolNode(flag: bool)
    | IntNode(number: int)
    | TextNode(text: Str)
    | ArrayNode(items: seq<Tree>)
    | ObjectNode(pairs: seq<Pair>)

  datatype Pair = Pair(key: Str, value: Tree)

  function TreeText(t: Tree): string
    decreases t
  {
    match t
    case NullNode => "null"
    case BoolNode(b) => if b then "true" else "false"
    case IntNode(n) => PlainInt(n)
    case TextNode(s) => Quote(s)
    case ArrayNode(items) => "[" + Join(Texts(items)) + "]"
    case ObjectNode(pairs) => "{" + Join(PairTexts(pairs)) + "}"
  }

  function Texts(items: seq<Tree>): seq<string>
    decreases items
  {
    if items == [] then [] else [TreeText(items[0])] + Texts(items[1..])
  }

  function PairTexts(pairs: seq<Pair>): seq<string>
    decreases pairs
  {
    if pairs == [] then [] else [Quote(pairs[0].key) + ":" + TreeText(pairs[0].value)] + PairTexts(pairs[1..])
  }

  /** The tree whose text is printed: keys in order. */
  ghost function Normal(v: Json): Tree
    requires Printable(v)
  {
    match v
    case Null => NullNode
    case Bool(b) => BoolNode(b)
    case Int(n) => IntNode(n)
    case Text(s) => TextNode(s)
    case List(items) => ArrayNode(seq(|items|, i requires 0 <= i < |items| => Normal(items[i])))
    case Dict(entries) =>
      var ks := Sorted(entries.Keys);
      ObjectNode(seq(|ks|, i requires 0 <= i < |ks| => Pair(ks[i], Normal(entries[ks[i]]))))
  }

  lemma TextsAt(items: seq<Tree>)
    ensures |Texts(items)| == |items|
    ensures forall i :: 0 <= i < |items| ==> Texts(items)[i] == TreeText(items[i])
  {}

  lemma PairTextsAt(pairs: seq<Pair>)
    ensures |PairTexts(pairs)| == |pairs|
    ensures forall i :: 0 <= i < |pairs| ==> PairTexts(pairs)[i] == Quote(pairs[i].key) + ":" + TreeText(pairs[i].value)
  {}

  /** Printing a value is printing its normal tree. */
  lemma {:induction false} PrintIsTreeText(v: Json)
    requires Printable(v)
    ensures Print(v) == TreeText(Normal(v))
  {
    match v
    case List(items) =>
      forall i | 0 <= i < |items| ensures Print(items[i]) == TreeText(Normal(items[i])) { PrintIsTreeText(items[i]); }
      ListIsTreeText(items);
    case Dict(entries) =>
      forall k | k in entries ensures Print(entries[k]) == TreeText(Normal(entries[k])) { PrintIsTreeText(entries[k]); }
      DictIsTreeText(entries);
    case _ =>
  }

  lemma ListIsTreeText(items: seq<Json>)
    requires Printable(List(items))
    requires forall i :: 0 <= i < |items| ==> Print(items[i]) == TreeText(Normal(items[i]))
    ensures Print(List(items)) == TreeText(Normal(List(items)))
  {
    TextsAt(Normal(List(items)).items);
    assert seq(|items|, i requires 0 <= i < |items| => Print(items[i])) == Texts(Normal(List(items)).items);
  }

  lemma DictIsTreeText(entries: map<Str, Json>)
    requires Printable(Dict(entries))
    requires forall k :: k in entries ==> Print(entries[k]) == TreeText(Normal(entries[k]))
    ensures Print(Dict(entries)) == TreeText(Normal(Dict(entries)))
  {
    var ks := Sorted(entries.Keys);
    PairTextsAt(Normal(Dict(entries)).pairs);
    assert seq(|ks|, i requires 0 <= i < |ks| => Quote(ks[i]) + ":" + Print(entries[ks[i]])) == PairTexts(Normal(Dict(entries)).pairs);
  }

  // ------------------------------------------------------------ code units

  /** The UTF-16 code units of a string; a lone surrogate is its own unit. */
  function Units(s: Str): Str {
    if s == [] then []
    else if s[0] < 0x1_0000 then [s[0]] + Units(s[1..])
    else [HighSurrogate(s[0]), LowSurrogate(s[0])] + Units(s[1..])
  }

  predicate Basic(s: Str) { forall i :: 0 <= i < |s| ==> s[i] < 0x1_0000 }

  lemma {:induction false} UnitsAreBasic(s: Str)
    ensures Basic(Units(s))
  {
    if s != [] { UnitsAreBasic(s[1..]); }
  }

  lemma PairEscape(c: Code)
    requires c >= 0x1_0000
    ensures Escape(c) == Escape(HighSurrogate(c)) + Escape(LowSurrogate(c))
  {
    hide Hex4;
  }

  lemma EscapeAllTwo(a: Code, b: Code, rest: Str)
    ensures EscapeAll([a, b] + rest) == Escape(a) + Escape(b) + EscapeAll(rest)
  {
    hide Escape;
    var s := [a, b] + rest;
    assert s[1..] == [b] + rest && s[1..][1..] == rest;
  }

  lemma {:induction false} EscapeAllUnits(s: Str)
    ensures EscapeAll(s) == EscapeAll(Units(s))
  {
    hide Escape;
    if s != [] {
      EscapeAllUnits(s[1..]);
      if s[0] < 0x1_0000 {
        assert Units(s)[1..] == Units(s[1..]);
      } else {
        PairEscape(s[0]);
        EscapeAllTwo(HighSurrogate(s[0]), LowSurrogate(s[0]), Units(s[1..]));
      }
    }
  }

  lemma {:induction false} UnitsInjective(a: Str, b: Str)
    requires Scalar(a) && Scalar(b) && Units(a) == Units(b)
    ensures a == b
  {
    if a == [] || b == [] {
      assert a == b;
    } else {
      assert !IsSurrogate(a[0]) && !IsSurrogate(b[0]);
      assert Units(a)[0] == Units(b)[0];
      if a[0] < 0x1_0000 {
        assert Units(a)[1..] == Units(a[1..]) && Units(b)[1..] == Units(b[1..]);
      } else {
        assert Units(a)[1] == Units(b)[1];
        assert Units(a)[2..] == Units(a[1..]) && Units(b)[2..] == Units(b[1..]);
        PairDetermines(a[0], b[0]);
      }
      UnitsInjective(a[1..], b[1..]);
      assert a == [a[0]] + a[1..] && b == [b[0]] + b[1..];
    }
  }

  lemma PairDetermines(c: Code, d: Code)
    requires c >= 0x1_0000 && d >= 0x1_0000
    requires HighSurrogate(c) == HighSurrogate(d) && LowSurrogate(c) == LowSurrogate(d)
    ensures c == d
  {}

  // ------------------------------------------------------------ a text has one tree

  lemma HexDigitInjective(a: nat, b: nat)
    requires a < 16 && b < 16 && HexDigit(a) == HexDigit(b)
    ensures a == b
  {}

  lemma HexDigits(n: nat) returns (a: nat, b: nat, c: nat, d: nat)
    requires n < 0x1_0000
    ensures a < 16 && b < 16 && c < 16 && d < 16 && n == ((a * 16 + b) * 16 + c) * 16 + d
    ensures Hex4(n) == [HexDigit(a), HexDigit(b), HexDigit(c), HexDigit(d)]
  {
    hide HexDigit;
    a, b, c, d := n / 0x1000, n / 0x100 % 0x10, n / 0x10 % 0x10, n % 0x10;
    assert n / 0x100 == n / 0x10 / 0x10 && n / 0x1000 == n / 0x100 / 0x10;
  }

  lemma Hex4Injective(m: nat, n: nat)
    requires m < 0x1_0000 && n < 0x1_0000 && Hex4(m) == Hex4(n)
    ensures m == n
  {
    hide HexDigit, Hex4;
    var a, b, c, d := HexDigits(m);
    var e, f, g, h := HexDigits(n);
    assert Hex4(m)[0] == Hex4(n)[0] && Hex4(m)[1] == Hex4(n)[1] && Hex4(m)[2] == Hex4(n)[2] && Hex4(m)[3] == Hex4(n)[3];
    HexDigitInjective(a, e);
    HexDigitInjective(b, f);
    HexDigitInjective(c, g);
    HexDigitInjective(d, h);
  }

  /** The letter after a backslash, for the units escaped with one letter. */
  function ShortEscape(c: nat): Option<char> {
    if c == 0x22 then Some('"') else if c == 0x5C then Some('\\')
    else if c == 0x0A then Some('n') else if c == 0x0D then Some('r') else if c == 0x09 then Some('t')
    else if c == 0x0C then Some('f') else if c == 0x08 then Some('b') else None
  }

  lemma EscapeShape(c: nat)
    requires c < 0x1_0000
    ensures EscapeUnit(c) == if ShortEscape(c).Some? then ['\\', ShortEscape(c).value]
                             else if 0x20 <= c <= 0x7E then [c as char] else ['\\', 'u'] + Hex4(c)
    ensures |EscapeUnit(c)| >= 1 && EscapeUnit(c)[0] != '"'
  {}

  lemma EscapeUnitUnique(c: nat, d: nat, x: string, y: string)
    requires c < 0x1_0000 && d < 0x1_0000 && EscapeUnit(c) + x == EscapeUnit(d) + y
    ensures c == d && x == y
  {
    EscapeShape(c);
    EscapeShape(d);
    hide EscapeUnit, Hex4;
    var a, b := EscapeUnit(c), EscapeUnit(d);
    assert (a + x)[0] == a[0] && (b + y)[0] == b[0];
    if a[0] == '\\' {
      assert (a + x)[1] == a[1] && (b + y)[1] == b[1];
      if ShortEscape(c) == None {
        HexTail(c, d, a, b, x, y);
      }
    }
    assert |a| == |b|;
    assert x == (a + x)[|a|..] && y == (b + y)[|b|..];
  }

  lemma HexTail(c: nat, d: nat, a: string, b: string, x: string, y: string)
    requires c < 0x1_0000 && d < 0x1_0000 && a + x == b + y
    requires a == ['\\', 'u'] + Hex4(c) && b == ['\\', 'u'] + Hex4(d)
    ensures c == d
  {
    assert (a + x)[2..6] == Hex4(c) && (b + y)[2..6] == Hex4(d);
    Hex4Injective(c, d);
  }

  /** The rest of a literal starts with the closing quote exactly when nothing is left of it. */
  lemma ClosesNow(a: Str, x: string)
    requires Basic(a)
    ensures (EscapeAll(a) + "\"" + x)[0] == '"' <==> a == []
  {
    hide EscapeUnit;
    if a != [] {
      EscapeShape(a[0]);
      assert (EscapeAll(a) + "\"" + x)[0] == EscapeUnit(a[0])[0];
    }
  }

  lemma LiteralStep(a: Str, x: string)
    requires Basic(a) && a != []
    ensures EscapeAll(a) + "\"" + x == EscapeUnit(a[0]) + (EscapeAll(a[1..]) + "\"" + x)
  {
    hide EscapeUnit;
  }

  /** A closing quote ends a literal at exactly one place. */
  lemma {:induction false} LiteralUnique(a: Str, b: Str, x: string, y: string)
    requires Basic(a) && Basic(b) && EscapeAll(a) + "\"" + x == EscapeAll(b) + "\"" + y
    ensures a == b && x == y
  {
    hide EscapeUnit;
    var u, w := EscapeAll(a) + "\"" + x, EscapeAll(b) + "\"" + y;
    ClosesNow(a, x);
    ClosesNow(b, y);
    if a == [] {
      assert u == ['"'] + x && w == ['"'] + y;
      assert u[1..] == x && w[1..] == y;
    } else {
      LiteralStep(a, x);
      LiteralStep(b, y);
      EscapeUnitUnique(a[0], b[0], EscapeAll(a[1..]) + "\"" + x, EscapeAll(b[1..]) + "\"" + y);
      LiteralUnique(a[1..], b[1..], x, y);
      assert a == [a[0]] + a[1..] && b == [b[0]] + b[1..];
    }
  }

  lemma QuoteUnique(a: Str, b: Str, x: string, y: string)
    requires Basic(a) && Basic(b) && Quote(a) + x == Quote(b) + y
    ensures a == b && x == y
  {
    var u, w := EscapeAll(a) + "\"" + x, EscapeAll(b) + "\"" + y;
    assert Quote(a) + x == ['"'] + u && Quote(b) + y == ['"'] + w;
    assert (Quote(a) + x)[1..] == u && (Quote(b) + y)[1..] == w;
    LiteralUnique(a, b, x, y);
  }

  /** What may follow a number: the end, or something that is not a digit. */
  predicate Delimits(rest: string) { rest == "" || !IsDigit(rest[0]) }

  lemma NotCutShort(a: string, b: string, x: string, y: string)
    requires AllDigits(b) && |a| < |b| && a + x == b + y
    ensures !Delimits(x)
  {
    assert x[0] == (a + x)[|a|] == b[|a|];
  }

  lemma DigitsUnique(a: string, b: string, x: string, y: string)
    requires AllDigits(a) && AllDigits(b) && Delimits(x) && Delimits(y) && a + x == b + y
    ensures a == b && x == y
  {
    if |a| < |b| { NotCutShort(a, b, x, y); }
    if |b| < |a| { NotCutShort(b, a, y, x); }
    assert a == (a + x)[..|a|] && b == (b + y)[..|b|];
    assert x == (a + x)[|a|..] && y == (b + y)[|b|..];
  }

  lemma NatUnique(m: nat, n: nat, x: string, y: string)
    requires Delimits(x) && Delimits(y) && Plain(m) + x == Plain(n) + y
    ensures m == n && x == y
  {
    hide Plain;
    PlainIsDigits(m);
    PlainIsDigits(n);
    DigitsUnique(Plain(m), Plain(n), x, y);
    NumberOfPlain(m);
    NumberOfPlain(n);
  }

  lemma MinusFirst(n: int, x: string)
    ensures |PlainInt(n)| >= 1 && ((PlainInt(n) + x)[0] == '-' <==> n < 0)
    ensures n < 0 ==> (PlainInt(n) + x)[1..] == Plain(-n) + x
  {
    hide Plain;
    if n < 0 {
      assert PlainInt(n) + x == ['-'] + (Plain(-n) + x);
    } else {
      PlainIsDigits(n);
      assert IsDigit(Plain(n)[0]);
    }
  }

  lemma NumberUnique(m: int, n: int, x: string, y: string)
    requires Delimits(x) && Delimits(y) && PlainInt(m) + x == PlainInt(n) + y
    ensures m == n && x == y
  {
    hide Plain;
    MinusFirst(m, x);
    MinusFirst(n, y);
    if m < 0 { NatUnique(-m, -n, x, y); } else { NatUnique(m, n, x, y); }
  }

  predicate BasicTree(t: Tree)
    decreases t
  {
    match t
    case TextNode(s) => Basic(s)
    case ArrayNode(items) => BasicTrees(items)
    case ObjectNode(pairs) => BasicPairs(pairs)
    case _ => true
  }

  predicate BasicTrees(items: seq<Tree>)
    decreases items
  {
    items == [] || (BasicTree(items[0]) && BasicTrees(items[1..]))
  }

  predicate BasicPairs(pairs: seq<Pair>)
    decreases pairs
  {
    pairs == [] || (Basic(pairs[0].key) && BasicTree(pairs[0].value) && BasicPairs(pairs[1..]))
  }

  datatype Kind = NullKind | TrueKind | FalseKind | NumberKind | TextKind | ArrayKind | ObjectKind | OtherKind

  function KindOf(t: Tree): Kind {
    match t
    case NullNode => NullKind
    case BoolNode(b) => if b then TrueKind else FalseKind
    case IntNode(_) => NumberKind
    case TextNode(_) => TextKind
    case ArrayNode(_) => ArrayKind
    case ObjectNode(_) => ObjectKind
  }

  function KindAt(c: char): Kind {
    if c == 'n' then NullKind else if c == 't' then TrueKind else if c == 'f' then FalseKind
    else if c == '-' || IsDigit(c) then NumberKind else if c == '"' then TextKind
    else if c == '[' then ArrayKind else if c == '{' then ObjectKind else OtherKind
  }

  /** The first character of a text tells the kind of value. */
  lemma FirstTells(t: Tree, x: string)
    ensures |TreeText(t)| >= 1 && KindAt((TreeText(t) + x)[0]) == KindOf(t)
  {
    match t
    case IntNode(n) =>
      MinusFirst(n, x);
      if n >= 0 { PlainIsDigits(n); }
    case _ =>
  }

  /** What follows the first of several joined texts, up to the closing bracket and beyond. */
  function AfterFirst(parts: seq<string>, close: string, x: string): string
    requires parts != []
  {
    if |parts| == 1 then close + x else "," + (Join(parts[1..]) + close + x)
  }

  lemma JoinStep(parts: seq<string>, close: string, x: string)
    requires parts != []
    ensures Join(parts) + close + x == parts[0] + AfterFirst(parts, close, x)
  {
    if |parts| > 1 { CommaStep(parts[0], Join(parts[1..]), close, x); } else { assert parts[0] + close + x == parts[0] + (close + x); }
  }

  lemma CommaStep(first: string, rest: string, close: string, x: string)
    ensures first + "," + rest + close + x == first + ("," + (rest + close + x))
  {}

  lemma ArrayStep(items: seq<Tree>, x: string)
    requires items != []
    ensures Texts(items) != [] && Texts(items)[1..] == Texts(items[1..])
    ensures Join(Texts(items)) + "]" + x == TreeText(items[0]) + AfterFirst(Texts(items), "]", x)
  {
    hide TreeText, Join;
    JoinStep(Texts(items), "]", x);
  }

  lemma ObjectStep(pairs: seq<Pair>, x: string)
    requires pairs != []
    ensures PairTexts(pairs) != [] && PairTexts(pairs)[1..] == PairTexts(pairs[1..])
    ensures Join(PairTexts(pairs)) + "}" + x ==
            Quote(pairs[0].key) + (":" + (TreeText(pairs[0].value) + AfterFirst(PairTexts(pairs), "}", x)))
  {
    hide TreeText, Quote, Join;
    JoinStep(PairTexts(pairs), "}", x);
    ColonStep(Quote(pairs[0].key), TreeText(pairs[0].value), AfterFirst(PairTexts(pairs), "}", x));
  }

  lemma ColonStep(a: string, b: string, c: string)
    ensures a + ":" + b + c == a + (":" + (b + c))
  {}

  /** A text, and what follows it, determine the tree. */
  lemma {:induction false} TreeUnique(t: Tree, u: Tree, x: string, y: string)
    requires BasicTree(t) && BasicTree(u) && Delimits(x) && Delimits(y) && TreeText(t) + x == TreeText(u) + y
    ensures t == u && x == y
    decreases t, 1
  {
    FirstTells(t, x);
    FirstTells(u, y);
    match t
    case IntNode(m) => NumberUnique(m, u.number, x, y);
    case TextNode(s) => QuoteUnique(s, u.text, x, y);
    case ArrayNode(items) =>
      Bracketed("[", "]", Join(Texts(items)), Join(Texts(u.items)), x, y);
      ArrayUnique(items, u.items, x, y);
    case ObjectNode(pairs) =>
      Bracketed("{", "}", Join(PairTexts(pairs)), Join(PairTexts(u.pairs)), x, y);
      ObjectUnique(pairs, u.pairs, x, y);
    case _ =>
      assert x == (TreeText(t) + x)[|TreeText(t)|..] && y == (TreeText(u) + y)[|TreeText(u)|..];
  }

  lemma Bracketed(open: string, close: string, a: string, b: string, x: string, y: string)
    requires open + a + close + x == open + b + close + y && |open| == 1
    ensures a + close + x == b + close + y
  {
    assert open + a + close + x == open + (a + close + x) && open + b + close + y == open + (b + close + y);
    assert (open + (a + close + x))[1..] == a + close + x && (open + (b + close + y))[1..] == b + close + y;
  }

  lemma {:induction false} ArrayUnique(xs: seq<Tree>, ys: seq<Tree>, x: string, y: string)
    requires BasicTrees(xs) && BasicTrees(ys) && Join(Texts(xs)) + "]" + x == Join(Texts(ys)) + "]" + y
    ensures xs == ys && x == y
    decreases xs, 0
  {
    hide TreeText, Join;
    ArrayEmpty(xs, x);
    ArrayEmpty(ys, y);
    if xs == [] {
      EmptyJoin("]", x);
      EmptyJoin("]", y);
    } else {
      ArrayStep(xs, x);
      ArrayStep(ys, y);
      var r, s := AfterFirst(Texts(xs), "]", x), AfterFirst(Texts(ys), "]", y);
      AfterFirstDelimits(Texts(xs), "]", x);
      AfterFirstDelimits(Texts(ys), "]", y);
      TreeUnique(xs[0], ys[0], r, s);
      TextsAt(xs);
      TextsAt(ys);
      SameContinuation(Texts(xs), Texts(ys), "]", x, y);
      if |xs| > 1 { ArrayUnique(xs[1..], ys[1..], x, y); }
      assert xs == [xs[0]] + xs[1..] && ys == [ys[0]] + ys[1..];
    }
  }

  lemma EmptyJoin(close: string, x: string)
    requires |close| == 1
    ensures Join([]) + close + x == close + x && (close + x)[1..] == x
  {}

  lemma AfterFirstDelimits(parts: seq<string>, close: string, x: string)
    requires parts != [] && |close| == 1 && !IsDigit(close[0]) && close[0] != ','
    ensures Delimits(AfterFirst(parts, close, x))
    ensures AfterFirst(parts, close, x)[0] == (if |parts| == 1 then close[0] else ',')
  {}

  /** Equal continuations stop or go on together. */
  lemma SameContinuation(a: seq<string>, b: seq<string>, close: string, x: string, y: string)
    requires a != [] && b != [] && |close| == 1 && !IsDigit(close[0]) && close[0] != ','
    requires AfterFirst(a, close, x) == AfterFirst(b, close, y)
    ensures (|a| == 1) == (|b| == 1)
    ensures |a| == 1 ==> x == y
    ensures |a| > 1 ==> Join(a[1..]) + close + x == Join(b[1..]) + close + y
  {
    hide Join;
    AfterFirstDelimits(a, close, x);
    AfterFirstDelimits(b, close, y);
    var r, s := AfterFirst(a, close, x), AfterFirst(b, close, y);
    assert r[1..] == (if |a| == 1 then x else Join(a[1..]) + close + x);
    assert s[1..] == (if |b| == 1 then y else Join(b[1..]) + close + y);
  }

  lemma ArrayEmpty(xs: seq<Tree>, x: string)
    ensures (Join(Texts(xs)) + "]" + x)[0] == ']' <==> xs == []
  {
    hide TreeText;
    if xs == [] {
      EmptyJoin("]", x);
    } else {
      ArrayStep(xs, x);
      FirstTells(xs[0], AfterFirst(Texts(xs), "]", x));
    }
  }

  lemma {:induction false} ObjectUnique(xs: seq<Pair>, ys: seq<Pair>, x: string, y: string)
    requires BasicPairs(xs) && BasicPairs(ys) && Join(PairTexts(xs)) + "}" + x == Join(PairTexts(ys)) + "}" + y
    ensures xs == ys && x == y
    decreases xs, 0
  {
    hide TreeText, Quote, Join;
    ObjectEmpty(xs, x);
    ObjectEmpty(ys, y);
    if xs == [] {
      EmptyJoin("}", x);
      EmptyJoin("}", y);
    } else {
      ObjectStep(xs, x);
      ObjectStep(ys, y);
      var r, s := AfterFirst(PairTexts(xs), "}", x), AfterFirst(PairTexts(ys), "}", y);
      AfterFirstDelimits(PairTexts(xs), "}", x);
      AfterFirstDelimits(PairTexts(ys), "}", y);
      PairUnique(xs[0], ys[0], r, s);
      PairTextsAt(xs);
      PairTextsAt(ys);
      SameContinuation(PairTexts(xs), PairTexts(ys), "}", x, y);
      if |xs| > 1 { ObjectUnique(xs[1..], ys[1..], x, y); }
      assert xs == [xs[0]] + xs[1..] && ys == [ys[0]] + ys[1..];
    }
  }

  lemma {:induction false} PairUnique(p: Pair, q: Pair, r: string, s: string)
    requires Basic(p.key) && Basic(q.key) && BasicTree(p.value) && BasicTree(q.value) && Delimits(r) && Delimits(s)
    requires Quote(p.key) + (":" + (TreeText(p.value) + r)) == Quote(q.key) + (":" + (TreeText(q.value) + s))
    ensures p == q && r == s
    decreases p, 2
  {
    hide TreeText, Quote;
    var a, b := TreeText(p.value) + r, TreeText(q.value) + s;
    QuoteUnique(p.key, q.key, ":" + a, ":" + b);
    assert (":" + a)[1..] == a && (":" + b)[1..] == b;
    TreeUnique(p.value, q.value, r, s);
  }

  lemma ObjectEmpty(xs: seq<Pair>, x: string)
    ensures (Join(PairTexts(xs)) + "}" + x)[0] == '}' <==> xs == []
  {
    hide TreeText;
    if xs == [] { EmptyJoin("}", x); } else { ObjectStep(xs, x); }
  }

  // ------------------------------------------------------------ when texts are equal

  function UnitTree(t: Tree): Tree
    decreases t
  {
    match t
    case TextNode(s) => TextNode(Units(s))
    case ArrayNode(items) => ArrayNode(UnitTrees(items))
    case ObjectNode(pairs) => ObjectNode(UnitPairs(pairs))
    case _ => t
  }

  function UnitTrees(items: seq<Tree>): seq<Tree>
    decreases items
  {
    if items == [] then [] else [UnitTree(items[0])] + UnitTrees(items[1..])
  }

  function UnitPairs(pairs: seq<Pair>): seq<Pair>
    decreases pairs
  {
    if pairs == [] then [] else [Pair(Units(pairs[0].key), UnitTree(pairs[0].value))] + UnitPairs(pairs[1..])
  }

  /** A tree and its code units print the same. */
  lemma {:induction false} UnitTreeText(t: Tree)
    ensures BasicTree(UnitTree(t)) && TreeText(UnitTree(t)) == TreeText(t)
    decreases t, 1
  {
    match t
    case TextNode(s) => EscapeAllUnits(s); UnitsAreBasic(s);
    case ArrayNode(items) => UnitTreesText(items);
    case ObjectNode(pairs) => UnitPairsText(pairs);
    case _ =>
  }

  lemma {:induction false} UnitTreesText(items: seq<Tree>)
    ensures BasicTrees(UnitTrees(items)) && Texts(UnitTrees(items)) == Texts(items)
    decreases items, 0
  {
    if items != [] {
      UnitTreeText(items[0]);
      UnitTreesText(items[1..]);
      assert UnitTrees(items)[1..] == UnitTrees(items[1..]);
    }
  }

  lemma {:induction false} UnitPairsText(pairs: seq<Pair>)
    ensures BasicPairs(UnitPairs(pairs)) && PairTexts(UnitPairs(pairs)) == PairTexts(pairs)
    decreases pairs, 0
  {
    if pairs != [] {
      EscapeAllUnits(pairs[0].key);
      UnitsAreBasic(pairs[0].key);
      UnitTreeText(pairs[0].value);
      UnitPairsText(pairs[1..]);
      assert UnitPairs(pairs)[1..] == UnitPairs(pairs[1..]);
    }
  }

  /** Equality of canonical text, for all printable values: it decides equality of
      the code-unit trees, no more and no less. */
  lemma TextDecides(v: Json, w: Json)
    requires Printable(v) && Printable(w)
    ensures Canonical(v) == Canonical(w) <==> UnitTree(Normal(v)) == UnitTree(Normal(w))
  {
    PrintIsTreeText(v);
    PrintIsTreeText(w);
    UnitTreeText(Normal(v));
    UnitTreeText(Normal(w));
    if Print(v) == Print(w) {
      var t, u := UnitTree(Normal(v)), UnitTree(Normal(w));
      assert TreeText(t) + "" == TreeText(t) && TreeText(u) + "" == TreeText(u);
      TreeUnique(t, u, "", "");
    }
  }

  predicate ScalarTree(t: Tree)
    decreases t
  {
    match t
    case TextNode(s) => Scalar(s)
    case ArrayNode(items) => ScalarTrees(items)
    case ObjectNode(pairs) => ScalarPairs(pairs)
    case _ => true
  }

  predicate ScalarTrees(items: seq<Tree>)
    decreases items
  {
    items == [] || (ScalarTree(items[0]) && ScalarTrees(items[1..]))
  }

  predicate ScalarPairs(pairs: seq<Pair>)
    decreases pairs
  {
    pairs == [] || (Scalar(pairs[0].key) && ScalarTree(pairs[0].value) && ScalarPairs(pairs[1..]))
  }

  lemma {:induction false} UnitTreeInjective(t: Tree, u: Tree)
    requires ScalarTree(t) && ScalarTree(u) && UnitTree(t) == UnitTree(u)
    ensures t == u
    decreases t, 1
  {
    match t
    case TextNode(s) => UnitsInjective(s, u.text);
    case ArrayNode(items) => UnitTreesInjective(items, u.items);
    case ObjectNode(pairs) => UnitPairsInjective(pairs, u.pairs);
    case _ =>
  }

  lemma {:induction false} UnitTreesInjective(a: seq<Tree>, b: seq<Tree>)
    requires ScalarTrees(a) && ScalarTrees(b) && UnitTrees(a) == UnitTrees(b)
    ensures a == b
    decreases a, 0
  {
    if a != [] && b != [] {
      assert UnitTrees(a)[0] == UnitTrees(b)[0] && UnitTrees(a)[1..] == UnitTrees(a[1..]) && UnitTrees(b)[1..] == UnitTrees(b[1..]);
      UnitTreeInjective(a[0], b[0]);
      UnitTreesInjective(a[1..], b[1..]);
      assert a == [a[0]] + a[1..] && b == [b[0]] + b[1..];
    }
  }

  lemma {:induction false} UnitPairsInjective(a: seq<Pair>, b: seq<Pair>)
    requires ScalarPairs(a) && ScalarPairs(b) && UnitPairs(a) == UnitPairs(b)
    ensures a == b
    decreases a, 0
  {
    if a != [] && b != [] {
      assert UnitPairs(a)[0] == UnitPairs(b)[0] && UnitPairs(a)[1..] == UnitPairs(a[1..]) && UnitPairs(b)[1..] == UnitPairs(b[1..]);
      UnitsInjective(a[0].key, b[0].key);
      UnitTreeInjective(a[0].value, b[0].value);
      UnitPairsInjective(a[1..], b[1..]);
      assert a == [a[0]] + a[1..] && b == [b[0]] + b[1..];
    }
  }

  // ------------------------------------------------------------ decoding

  /** The decoder hook: an object with a repeated key is refused. */
  method UniquePairs(pairs: seq<(Str, Json)>) returns (decoded: Option<map<Str, Json>>)
    ensures decoded == ObjectOf(pairs)
  {
    var result: map<Str, Json> := map[];
    for i := 0 to |pairs|
      invariant ObjectOf(pairs[..i]) == Some(result)
    {
      assert pairs[..i + 1] == pairs[..i] + [pairs[i]];
      ObjectOfStep(pairs[..i], pairs[i]);
      if pairs[i].0 in result {
        RepeatStays(pairs, i + 1);
        return None;
      }
      result := result[pairs[i].0 := pairs[i].1];
    }
    assert pairs[..|pairs|] == pairs;
    decoded := Some(result);
  }

  ghost predicate DistinctKeys(pairs: seq<(Str, Json)>) { forall i, j :: 0 <= i < j < |pairs| ==> pairs[i].0 != pairs[j].0 }

  /** With distinct keys, the map that holds exactly the pairs; otherwise nothing. */
  ghost function ObjectOf(pairs: seq<(Str, Json)>): Option<map<Str, Json>> {
    if DistinctKeys(pairs) then Some(map i | 0 <= i < |pairs| :: pairs[i].0 := pairs[i].1) else None
  }

  lemma ObjectOfStep(pairs: seq<(Str, Json)>, pair: (Str, Json))
    requires ObjectOf(pairs).Some?
    ensures ObjectOf(pairs + [pair]) ==
            if pair.0 in ObjectOf(pairs).value then None else Some(ObjectOf(pairs).value[pair.0 := pair.1])
  {
    var all := pairs + [pair];
    assert all[|pairs|] == pair && forall i :: 0 <= i < |pairs| ==> all[i] == pairs[i];
    if i :| 0 <= i < |pairs| && pairs[i].0 == pair.0 {
      assert all[i].0 == all[|pairs|].0;
    } else {
      assert ObjectOf(all).value == ObjectOf(pairs).value[pair.0 := pair.1];
    }
  }

  lemma RepeatStays(pairs: seq<(Str, Json)>, n: nat)
    requires n <= |pairs| && ObjectOf(pairs[..n]) == None
    ensures ObjectOf(pairs) == None
  {
    var i, j :| 0 <= i < j < n && pairs[..n][i].0 == pairs[..n][j].0;
    assert pairs[i].0 == pairs[j].0;
  }

  /** What decoding builds from a parse tree, bottom up. */
  ghost function Build(t: Tree): Option<Json>
    decreases t
  {
    match t
    case NullNode => Some(Null)
    case BoolNode(b) => Some(Bool(b))
    case IntNode(n) => Some(Int(n))
    case TextNode(s) => Some(Text(s))
    case ArrayNode(items) =>
      if forall i :: 0 <= i < |items| ==> Build(items[i]).Some? then
        Some(List(seq(|items|, i requires 0 <= i < |items| => Build(items[i]).value)))
      else None
    case ObjectNode(pairs) =>
      if forall i :: 0 <= i < |pairs| ==> Build(pairs[i].value).Some? then
        var entries := ObjectOf(seq(|pairs|, i requires 0 <= i < |pairs| => (pairs[i].key, Build(pairs[i].value).value)));
        if entries.Some? then Some(Dict(entries.value)) else None
      else None
  }

  /** Decoding the tree of a printed value returns the value. */
  lemma {:induction false} BuildNormal(v: Json)
    requires Printable(v)
    ensures Build(Normal(v)) == Some(v)
  {
    match v
    case List(items) =>
      forall i | 0 <= i < |items| ensures Build(Normal(items[i])) == Some(items[i]) { BuildNormal(items[i]); }
      var t := Normal(v);
      assert seq(|t.items|, i requires 0 <= i < |t.items| => Build(t.items[i]).value) == items;
    case Dict(entries) =>
      var ks := Sorted(entries.Keys);
      forall i | 0 <= i < |ks| ensures Build(Normal(entries[ks[i]])) == Some(entries[ks[i]]) { BuildNormal(entries[ks[i]]); }
      BuildDict(entries);
    case _ =>
  }

  function PairsOf(ks: seq<Str>, entries: map<Str, Json>): seq<(Str, Json)>
    requires forall k :: k in ks ==> k in entries
  {
    seq(|ks|, i requires 0 <= i < |ks| => (ks[i], entries[ks[i]]))
  }

  ghost predicate HasKey(pairs: seq<(Str, Json)>, k: Str) { exists i :: 0 <= i < |pairs| && pairs[i].0 == k }

  lemma ObjectOfPairs(pairs: seq<(Str, Json)>, entries: map<Str, Json>)
    requires DistinctKeys(pairs)
    requires forall i :: 0 <= i < |pairs| ==> pairs[i].0 in entries && entries[pairs[i].0] == pairs[i].1
    requires forall k :: k in entries ==> HasKey(pairs, k)
    ensures ObjectOf(pairs) == Some(entries)
  {
    var built := ObjectOf(pairs).value;
    forall k | k in entries ensures k in built {
      assert HasKey(pairs, k);
    }
    assert built.Keys == entries.Keys;
    assert built == entries;
  }

  lemma ObjectOfKeys(ks: seq<Str>, entries: map<Str, Json>)
    requires forall k :: k in ks <==> k in entries
    requires forall i, j :: 0 <= i < j < |ks| ==> ks[i] != ks[j]
    ensures ObjectOf(PairsOf(ks, entries)) == Some(entries)
  {
    hide ObjectOf;
    var pairs := PairsOf(ks, entries);
    assert forall i :: 0 <= i < |pairs| ==> pairs[i].0 == ks[i] && pairs[i].1 == entries[ks[i]];
    forall k | k in entries ensures HasKey(pairs, k) { var i :| 0 <= i < |ks| && ks[i] == k; assert pairs[i].0 == k; }
    ObjectOfPairs(pairs, entries);
  }

  lemma BuildDict(entries: map<Str, Json>)
    requires Printable(Dict(entries))
    requires forall i :: 0 <= i < |Sorted(entries.Keys)| ==>
      Build(Normal(entries[Sorted(entries.Keys)[i]])) == Some(entries[Sorted(entries.Keys)[i]])
    ensures Build(Normal(Dict(entries))) == Some(Dict(entries))
  {
    hide ObjectOf, Sorted, Leq;
    var ks := Sorted(entries.Keys);
    var pairs := Normal(Dict(entries)).pairs;
    assert PairsOf(ks, entries) == seq(|pairs|, i requires 0 <= i < |pairs| => (pairs[i].key, Build(pairs[i].value).value));
    ObjectOfKeys(ks, entries);
  }

  /** Every key, at any depth, is well-formed text. */
  predicate ScalarKeys(v: Json) {
    match v
    case List(items) => forall i :: 0 <= i < |items| ==> ScalarKeys(items[i])
    case Dict(entries) => forall k :: k in entries ==> Scalar(k) && ScalarKeys(entries[k])
    case _ => true
  }

  lemma {:induction false} ScalarNormal(v: Json)
    requires Printable(v) && ScalarKeys(v)
    ensures ScalarTree(Normal(v))
  {
    match v
    case List(items) =>
      forall i | 0 <= i < |items| ensures ScalarTree(Normal(items[i])) { ScalarNormal(items[i]); }
      AllScalarTrees(Normal(v).items);
    case Dict(entries) =>
      var ks := Sorted(entries.Keys);
      forall i | 0 <= i < |ks| ensures Scalar(ks[i]) && ScalarTree(Normal(entries[ks[i]])) {
        assert ks[i] in ks;
        ScalarNormal(entries[ks[i]]);
      }
      AllScalarPairs(Normal(v).pairs);
    case _ =>
  }

  lemma {:induction false} AllScalarTrees(items: seq<Tree>)
    requires forall i :: 0 <= i < |items| ==> ScalarTree(items[i])
    ensures ScalarTrees(items)
  {
    if items != [] { AllScalarTrees(items[1..]); }
  }

  lemma {:induction false} AllScalarPairs(pairs: seq<Pair>)
    requires forall i :: 0 <= i < |pairs| ==> Scalar(pairs[i].key) && ScalarTree(pairs[i].value)
    ensures ScalarPairs(pairs)
  {
    if pairs != [] { AllScalarPairs(pairs[1..]); }
  }

  /** On values whose keys are well-formed text, canonical text decides equality. */
  lemma CanonicalIsInjective(v: Json, w: Json)
    requires Printable(v) && Printable(w) && ScalarKeys(v) && ScalarKeys(w)
    ensures Canonical(v) == Canonical(w) <==> v == w
  {
    TextDecides(v, w);
    ScalarNormal(v);
    ScalarNormal(w);
    if Canonical(v) == Canonical(w) {
      UnitTreeInjective(Normal(v), Normal(w));
      BuildNormal(v);
      BuildNormal(w);
    }
  }

  /** Any tree of scalar text that reads as the canonical text of a value decodes to it. */
  lemma AnyReadingDecodes(v: Json, t: Tree)
    requires Printable(v) && ScalarKeys(v) && ScalarTree(t) && Canonical(v) == Some(TreeText(t))
    ensures Build(t) == Some(v)
  {
    PrintIsTreeText(v);
    ScalarNormal(v);
    UnitTreeText(t);
    UnitTreeText(Normal(v));
    var x, y := UnitTree(t), UnitTree(Normal(v));
    assert TreeText(x) + "" == TreeText(x) && TreeText(y) + "" == TreeText(y);
    TreeUnique(x, y, "", "");
    UnitTreeInjective(t, Normal(v));
    BuildNormal(v);
  }

  /** Keys are not checked to encode: a surrogate pair as a key prints like the
      character it stands for, although the two values differ. */
  lemma SurrogateKeysCollide()
    ensures var v, w := Dict(map[[0xD800, 0xDC00] := Null]), Dict(map[[0x1_0000] := Null]);
      v != w && Canonical(v).Some? && Canonical(v) == Canonical(w)
  {
    var a: Str, b: Str := [0xD800, 0xDC00], [0x1_0000];
    var v, w := Dict(map[a := Null]), Dict(map[b := Null]);
    assert a in v.entries && b in w.entries && a[0] != b[0];
    SingleKey(a);
    SingleKey(b);
    assert Units(a[1..]) == [0xDC00] + Units(a[1..][1..]);
    assert Units(a) == a && Units(b) == a;
    TextDecides(v, w);
    var p, q := [Pair(a, NullNode)], [Pair(b, NullNode)];
    assert UnitPairs(p) == [Pair(Units(a), NullNode)] + UnitPairs(p[1..]);
    assert UnitPairs(q) == [Pair(Units(b), NullNode)] + UnitPairs(q[1..]);
  }

  lemma SingleSorted(k: Str)
    ensures Sorted({k}) == [k]
  {
    var ks := Sorted({k});
    assert k in ks;
    AllSame(ks, k);
  }

  lemma AllSame(ks: seq<Str>, k: Str)
    requires k in ks && forall x :: x in ks ==> x == k
    requires forall i, j :: 0 <= i < j < |ks| ==> ks[i] != ks[j]
    ensures ks == [k]
  {
    if |ks| >= 2 { FirstTwoDiffer(ks); }
  }

  lemma FirstTwoDiffer(ks: seq<Str>)
    requires |ks| >= 2 && forall i, j :: 0 <= i < j < |ks| ==> ks[i] != ks[j]
    ensures ks[0] in ks && ks[1] in ks && ks[0] != ks[1]
  {}

  lemma SingleKey(k: Str)
    ensures Printable(Dict(map[k := Null])) && Normal(Dict(map[k := Null])) == ObjectNode([Pair(k, NullNode)])
  {
    var entries: map<Str, Json> := map[k := Null];
    var ks := Sorted(entries.Keys);
    SingleSorted(k);
    assert entries.Keys == {k};
  }
}

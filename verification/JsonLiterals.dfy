/** Reading back what the canonical text writes: string literals as section 7 of RFC 8259 defines
    them, surrogate pairs, and the shape of arrays and objects. */
module JsonLiterals {
  import opened Wrappers
  import opened CodePoints
  import opened DecimalNotation
  import opened CanonicalText

  // ------------------------------------------------------------ string literals

  function HexValue(c: char): Option<nat> {
    if '0' <= c <= '9' then Some(c as int - '0' as int)
    else if 'a' <= c <= 'f' then Some(10 + (c as int - 'a' as int))
    else if 'A' <= c <= 'F' then Some(10 + (c as int - 'A' as int))
    else None
  }

  function HexNumber(t: string): Option<nat> {
    if t == "" then Some(0)
    else
      var upper, last := HexNumber(t[..|t| - 1]), HexValue(t[|t| - 1]);
      if upper.Some? && last.Some? then Some(16 * upper.value + last.value) else None
  }

  /** The code unit that a literal's text begins with, and how many characters it takes. */
  function FirstUnit(t: string): Option<(nat, nat)> {
    if t == "" || t[0] == '"' then None
    else if t[0] != '\\' then (if t[0] < ' ' then None else Some((t[0] as int, 1)))
    else if |t| < 2 then None
    else
      match t[1]
      case '"' => Some((0x22, 2))
      case '\\' => Some((0x5C, 2))
      case '/' => Some((0x2F, 2))
      case 'b' => Some((0x08, 2))
      case 'f' => Some((0x0C, 2))
      case 'n' => Some((0x0A, 2))
      case 'r' => Some((0x0D, 2))
      case 't' => Some((0x09, 2))
      case 'u' =>
        if |t| < 6 then None
        else
          var n := HexNumber(t[2..6]);
          if n.Some? then Some((n.value, 6)) else None
      case _ => None
  }

  /** The code units between the quotes. */
  function ReadUnits(t: string): Option<seq<nat>>
    decreases |t|
  {
    if t == "" then Some([])
    else
      var first := FirstUnit(t);
      if first == None || first.value.1 == 0 || first.value.1 > |t| then None
      else
        var rest := ReadUnits(t[first.value.1..]);
        if rest == None then None else Some([first.value.0] + rest.value)
  }

  lemma HexDigitReads(d: nat)
    requires d < 16
    ensures HexValue(HexDigit(d)) == Some(d)
  {}

  lemma FourDigits(t: string)
    requires |t| == 4 && forall i :: 0 <= i < 4 ==> HexValue(t[i]).Some?
    ensures HexNumber(t) ==
      Some(0x1000 * HexValue(t[0]).value + 0x100 * HexValue(t[1]).value + 0x10 * HexValue(t[2]).value + HexValue(t[3]).value)
  {
    hide HexValue;
    var a, b, c := t[..1], t[..2], t[..3];
    assert t[..3] == c && c[..2] == b && b[..1] == a && a[..0] == "";
    assert HexNumber(a) == Some(HexValue(t[0]).value);
    assert HexNumber(b) == Some(16 * HexValue(t[0]).value + HexValue(t[1]).value);
    assert HexNumber(c) == Some(16 * (16 * HexValue(t[0]).value + HexValue(t[1]).value) + HexValue(t[2]).value);
  }

  lemma HexReads(n: nat)
    requires n < 0x1_0000
    ensures HexNumber(Hex4(n)) == Some(n)
  {
    hide HexDigit, HexNumber, HexValue, Hex4;
    var a, b, c, d := HexDigits(n);
    HexDigitReads(a);
    HexDigitReads(b);
    HexDigitReads(c);
    HexDigitReads(d);
    assert Hex4(n)[0] == HexDigit(a) && Hex4(n)[1] == HexDigit(b) && Hex4(n)[2] == HexDigit(c) && Hex4(n)[3] == HexDigit(d);
    FourDigits(Hex4(n));
  }

  /** What is written of a code unit is read as that unit, whatever follows. */
  lemma EscapeReads(c: nat, rest: string)
    requires c < 0x1_0000
    ensures FirstUnit(EscapeUnit(c) + rest) == Some((c, |EscapeUnit(c)|))
  {
    hide Hex4, HexNumber;
    var t := EscapeUnit(c) + rest;
    if c in {0x22, 0x5C, 0x0A, 0x0D, 0x09, 0x0C, 0x08} {
      assert |EscapeUnit(c)| == 2 && t[0] == EscapeUnit(c)[0] && t[1] == EscapeUnit(c)[1];
    } else if 0x20 <= c <= 0x7E {
      assert t[0] == c as char;
    } else {
      HexReads(c);
      HexLength(c);
      assert t[0] == '\\' && t[1] == 'u' && t[2..6] == Hex4(c);
    }
  }

  lemma HexLength(n: nat)
    requires n < 0x1_0000
    ensures |Hex4(n)| == 4
  {}

  /** Every text is read back from its literal as its UTF-16 code units. */
  lemma {:induction false} LiteralReads(s: Str)
    ensures ReadUnits(EscapeAll(s)) == Some(Units(s))
  {
    EscapeAllUnits(s);
    UnitsAreBasic(s);
    UnitsRead(Units(s));
  }

  lemma {:induction false} UnitsRead(u: Str)
    requires Basic(u)
    ensures ReadUnits(EscapeAll(u)) == Some(u)
    decreases |u|
  {
    hide EscapeUnit, FirstUnit;
    if u != [] {
      UnitsRead(u[1..]);
      EscapeReads(u[0], EscapeAll(u[1..]));
      var t := EscapeAll(u);
      assert t == EscapeUnit(u[0]) + EscapeAll(u[1..]);
      UnitIsWritten(u[0]);
      assert t[|EscapeUnit(u[0])|..] == EscapeAll(u[1..]);
      assert u == [u[0]] + u[1..];
    }
  }

  lemma UnitIsWritten(c: nat)
    requires c < 0x1_0000
    ensures |EscapeUnit(c)| > 0
  {
    hide Hex4;
  }

  /** A character beyond the basic plane is a high and a low surrogate, ten bits each. */
  lemma SurrogatesDecode(c: Code)
    requires c >= 0x1_0000
    ensures 0xD800 <= HighSurrogate(c) <= 0xDBFF && 0xDC00 <= LowSurrogate(c) <= 0xDFFF
    ensures (HighSurrogate(c) - 0xD800) * 0x400 + (LowSurrogate(c) - 0xDC00) + 0x1_0000 == c
  {}

  /** The surrogates are the halves of such characters. */
  lemma SurrogatesAre(s: Code)
    ensures IsSurrogate(s) <==> exists c: Code :: c >= 0x1_0000 && (s == HighSurrogate(c) || s == LowSurrogate(c))
  {
    if 0xD800 <= s <= 0xDBFF {
      var c: Code := 0x1_0000 + (s - 0xD800) * 0x400;
      assert HighSurrogate(c) == s;
    } else if 0xDC00 <= s <= 0xDFFF {
      var c: Code := 0x1_0000 + (s - 0xDC00);
      assert LowSurrogate(c) == s;
    }
  }

  // ------------------------------------------------------------ what can be printed

  /** The value itself, or one somewhere inside it. */
  ghost predicate Occurs(u: Json, v: Json)
    decreases v
  {
    u == v
    || match v
       case List(items) => exists i :: 0 <= i < |items| && Occurs(u, items[i])
       case Dict(entries) => exists k :: k in entries && Occurs(u, entries[k])
       case _ => false
  }

  /** What stands in the way of printing: a float, an object of another kind, a dictionary with a key
      that is no text, or a text, but not a key, with a lone surrogate. */
  ghost predicate Hinders(u: Json) {
    u.Float? || u.OtherObject? || u.DictWithOtherKey? || (u.Text? && exists i :: 0 <= i < |u.text| && 0xD800 <= u.text[i] <= 0xDFFF)
  }

  lemma {:induction false} PrintableExactlyWhen(v: Json)
    ensures Printable(v) <==> forall u :: Occurs(u, v) ==> !Hinders(u)
    decreases v
  {
    hide Hinders;
    LeafHinders(v);
    match v
    case List(items) =>
      forall i | 0 <= i < |items| ensures Printable(items[i]) <==> forall u :: Occurs(u, items[i]) ==> !Hinders(u) { PrintableExactlyWhen(items[i]); }
      forall i | 0 <= i < |items| ensures forall u :: Occurs(u, items[i]) ==> Occurs(u, v) {}
    case Dict(entries) =>
      forall k | k in entries ensures Printable(entries[k]) <==> forall u :: Occurs(u, entries[k]) ==> !Hinders(u) { PrintableExactlyWhen(entries[k]); }
      forall k | k in entries ensures forall u :: Occurs(u, entries[k]) ==> Occurs(u, v) {}
    case _ =>
      assert Occurs(v, v);
  }

  ghost predicate NoSurrogate(k: Str) { forall i :: 0 <= i < |k| ==> !(0xD800 <= k[i] <= 0xDFFF) }

  /** Keys are scalar text throughout when no dictionary anywhere inside has a key with a lone surrogate. */
  lemma {:induction false} ScalarKeysExactlyWhen(v: Json)
    ensures ScalarKeys(v) <==> forall u, k :: Occurs(u, v) && u.Dict? && k in u.entries ==> NoSurrogate(k)
    decreases v
  {
    assert forall k :: NoSurrogate(k) <==> Scalar(k);
    hide NoSurrogate, Scalar;
    match v
    case List(items) =>
      forall i | 0 <= i < |items| { ScalarKeysExactlyWhen(items[i]); }
      forall i | 0 <= i < |items| ensures forall u :: Occurs(u, items[i]) ==> Occurs(u, v) {}
    case Dict(entries) =>
      assert Occurs(v, v);
      forall k | k in entries { ScalarKeysExactlyWhen(entries[k]); }
      forall k | k in entries ensures forall u :: Occurs(u, entries[k]) ==> Occurs(u, v) {}
    case _ =>
  }

  lemma LeafHinders(v: Json)
    ensures !v.List? && !v.Dict? ==> (Printable(v) <==> !Hinders(v))
    ensures v.List? || v.Dict? ==> !Hinders(v)
  {}

  // ------------------------------------------------------------ constants, arrays and objects

  lemma ConstantTexts(s: Str)
    ensures Print(Null) == "null" && Print(Bool(true)) == "true" && Print(Bool(false)) == "false"
    ensures Quote(s) == "\"" + EscapeAll(s) + "\"" && (Printable(Text(s)) ==> Print(Text(s)) == Quote(s))
  {}

  /** A list in brackets, item by item, with commas between and no blanks. */
  lemma ListText(v: Json, items: seq<Json>)
    requires Printable(List(items)) && Printable(v)
    ensures Print(List([])) == "[]" && Print(List([v])) == "[" + Print(v) + "]"
    ensures items != [] ==> Print(List([v] + items)) == "[" + Print(v) + "," + Print(List(items))[1..]
  {
    var all := [v] + items;
    var parts := seq(|all|, i requires 0 <= i < |all| => Print(all[i]));
    assert parts[0] == Print(v);
    assert parts[1..] == seq(|items|, i requires 0 <= i < |items| => Print(items[i]));
    Opened("[", Print(v), Join(parts[1..]), "]");
    var one := seq(1, i requires 0 <= i < 1 => Print([v][i]));
    assert one == [Print(v)];
  }

  lemma Opened(open: string, first: string, rest: string, close: string)
    requires |open| == 1
    ensures open + (first + "," + rest) + close == open + first + "," + (open + rest + close)[1..]
  {
    assert (open + rest + close)[1..] == rest + close;
  }

  /** A dictionary in braces, least key first, each key before its value. */
  lemma DictText(k: Str, v: Json, entries: map<Str, Json>)
    requires Printable(Dict(entries)) && Printable(v) && k !in entries && forall o :: o in entries ==> Leq(k, o)
    ensures Print(Dict(map[])) == "{}" && Print(Dict(map[k := v])) == "{" + (Quote(k) + ":" + Print(v)) + "}"
    ensures entries != map[] ==>
      Print(Dict(entries[k := v])) == "{" + (Quote(k) + ":" + Print(v)) + "," + Print(Dict(entries))[1..]
  {
    hide Quote, Sorted, Print, EntryTexts;
    NoEntry();
    OneEntry(k, v);
    LeastFirst(k, entries.Keys);
    var all: map<Str, Json> := entries[k := v];
    assert all.Keys == {k} + entries.Keys;
    var rest := Sorted(entries.Keys);
    FirstEntry(k, rest, all, entries);
    EntriesJoined(all);
    EntriesJoined(entries);
    if entries != map[] {
      var o :| o in entries.Keys;
      assert o in rest;
      Joined(EntryText(k, v), EntryTexts(rest, entries));
      Opened("{", EntryText(k, v), Join(EntryTexts(rest, entries)), "}");
    }
  }

  lemma Joined(first: string, rest: seq<string>)
    requires rest != []
    ensures Join([first] + rest) == first + "," + Join(rest)
  {
    assert ([first] + rest)[1..] == rest;
  }

  ghost function EntryText(k: Str, v: Json): string
    requires Printable(v)
  {
    Quote(k) + ":" + Print(v)
  }

  lemma FirstEntry(k: Str, rest: seq<Str>, all: map<Str, Json>, entries: map<Str, Json>)
    requires k in all && Printable(all[k])
    requires forall o :: o in rest ==> o in entries && Printable(entries[o]) && o in all && all[o] == entries[o]
    ensures EntryTexts([k] + rest, all) == [EntryText(k, all[k])] + EntryTexts(rest, entries)
  {
    hide EntryText, EntryTexts;
    forall i | 0 <= i < |rest| ensures all[rest[i]] == entries[rest[i]] { assert rest[i] in rest; }
    Prepended(EntryTexts([k] + rest, all), EntryText(k, all[k]), EntryTexts(rest, entries));
  }

  lemma Prepended(all: seq<string>, first: string, rest: seq<string>)
    requires |all| == 1 + |rest| && all[0] == first && forall i :: 0 <= i < |rest| ==> rest[i] == all[i + 1]
    ensures all == [first] + rest
  {}

  lemma NoEntry()
    ensures Print(Dict(map[])) == "{}"
  {
    var none: map<Str, Json> := map[];
    EntriesJoined(none);
    assert none.Keys == {} && Sorted({}) == [];
    assert EntryTexts([], none) == [];
  }

  lemma OneEntry(k: Str, v: Json)
    requires Printable(v)
    ensures Print(Dict(map[k := v])) == "{" + (Quote(k) + ":" + Print(v)) + "}"
  {
    hide Quote, Sorted, Print;
    var one: map<Str, Json> := map[k := v];
    EntriesJoined(one);
    SingleSorted(k);
    assert one.Keys == {k};
    assert EntryTexts([k], one) == [Quote(k) + ":" + Print(v)];
  }

  ghost function EntryTexts(ks: seq<Str>, entries: map<Str, Json>): (texts: seq<string>)
    requires forall k :: k in ks ==> k in entries && Printable(entries[k])
    ensures |texts| == |ks| && forall i :: 0 <= i < |ks| ==> texts[i] == EntryText(ks[i], entries[ks[i]])
  {
    seq(|ks|, i requires 0 <= i < |ks| => EntryText(ks[i], entries[ks[i]]))
  }

  lemma EntriesJoined(entries: map<Str, Json>)
    requires Printable(Dict(entries))
    ensures Print(Dict(entries)) == "{" + Join(EntryTexts(Sorted(entries.Keys), entries)) + "}"
  {
    hide Quote, Sorted;
    var ks := Sorted(entries.Keys);
    assert EntryTexts(ks, entries) == seq(|ks|, i requires 0 <= i < |ks| => Quote(ks[i]) + ":" + Print(entries[ks[i]]));
  }

  lemma LeastFirst(k: Str, keys: set<Str>)
    requires k !in keys && forall o :: o in keys ==> Leq(k, o)
    ensures Sorted({k} + keys) == [k] + Sorted(keys)
  {
    LeqTotal(k, k);
    assert IsLeast(k, {k} + keys);
    LeastExists({k} + keys);
    assert {k} + keys - {k} == keys;
  }
}

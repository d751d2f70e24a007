/** Python strings as sequences of code points, and the order `sorted` puts them in. */
module CodePoints {
  /** A lone surrogate is a code point too. */
  type Code = c: nat | c < 0x11_0000

  type Str = seq<Code>

  function FromAscii(s: string): (r: Str)
    requires forall i :: 0 <= i < |s| ==> s[i] < 128 as char
    ensures |r| == |s| && forall i :: 0 <= i < |s| ==> r[i] == s[i] as int
  {
    seq(|s|, i requires 0 <= i < |s| => s[i] as int)
  }

  /** Order of strings by code point. */
  predicate Leq(a: Str, b: Str) {
    a == [] || (b != [] && (a[0] < b[0] || (a[0] == b[0] && Leq(a[1..], b[1..]))))
  }

  lemma {:induction false} LeqTotal(a: Str, b: Str)
    ensures Leq(a, b) || Leq(b, a)
    ensures Leq(a, b) && Leq(b, a) ==> a == b
  {
    if a != [] && b != [] && a[0] == b[0] { LeqTotal(a[1..], b[1..]); }
  }

  lemma {:induction false} LeqTrans(a: Str, b: Str, c: Str)
    requires Leq(a, b) && Leq(b, c)
    ensures Leq(a, c)
  {
    if a != [] && a[0] == b[0] == c[0] { LeqTrans(a[1..], b[1..], c[1..]); }
  }

  /** A common beginning does not matter. */
  lemma {:induction false} LeqAfterPrefix(p: Str, a: Str, b: Str)
    ensures Leq(p + a, p + b) <==> Leq(a, b)
  {
    if p == [] {
      assert p + a == a && p + b == b;
    } else {
      LeqAfterPrefix(p[1..], a, b);
      assert (p + a)[1..] == p[1..] + a && (p + b)[1..] == p[1..] + b;
    }
  }

  predicate IsLeast(k: Str, keys: set<Str>) { k in keys && forall o :: o in keys ==> Leq(k, o) }

  lemma {:induction false} LeastExists(keys: set<Str>)
    requires keys != {}
    ensures exists k :: IsLeast(k, keys)
    ensures forall k, o :: IsLeast(k, keys) && IsLeast(o, keys) ==> k == o
  {
    var k :| k in keys;
    LeqTotal(k, k);
    var others := keys - {k};
    if others == {} {
      assert keys == {k};
      assert IsLeast(k, keys);
    } else {
      LeastExists(others);
      var o :| IsLeast(o, others);
      LeqTotal(k, o);
      forall x | x in keys && Leq(k, o) ensures Leq(k, x) {
        if x != k { LeqTrans(k, o, x); }
      }
      assert IsLeast(if Leq(k, o) then k else o, keys);
    }
    forall a, b | IsLeast(a, keys) && IsLeast(b, keys) ensures a == b { LeqTotal(a, b); }
  }

  function Sorted(keys: set<Str>): (ks: seq<Str>)
    ensures forall k :: k in ks <==> k in keys
    ensures forall i, j :: 0 <= i < j < |ks| ==> ks[i] != ks[j] && Leq(ks[i], ks[j])
  {
    if keys == {} then []
    else
      LeastExists(keys);
      var k :| k in keys && IsLeast(k, keys);
      [k] + Sorted(keys - {k})
  }
}

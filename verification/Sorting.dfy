/** The stable sort that `sorted` and `list.sort` perform, for any order. */
module Sorting {
  ghost predicate IsTotalOrder<T(!new)>(leq: (T, T) -> bool) {
    && (forall a, b :: leq(a, b) || leq(b, a))
    && forall a, b, c :: leq(a, b) && leq(b, c) ==> leq(a, c)
  }

  ghost predicate InOrder<T>(leq: (T, T) -> bool, s: seq<T>) { forall i, j :: 0 <= i < j < |s| ==> leq(s[i], s[j]) }

  /** Into its place, after its equals. */
  function Insert<T(!new)>(leq: (T, T) -> bool, x: T, s: seq<T>): (r: seq<T>)
    ensures multiset(r) == multiset(s) + multiset{x}
    ensures |r| == |s| + 1 && forall y :: y in r <==> y == x || y in s
  {
    if s == [] then [x]
    else if leq(s[|s| - 1], x) then s + [x]
    else
      assert s == s[..|s| - 1] + [s[|s| - 1]];
      Insert(leq, x, s[..|s| - 1]) + [s[|s| - 1]]
  }

  function Sorted<T(!new)>(leq: (T, T) -> bool, s: seq<T>): (r: seq<T>)
    ensures multiset(r) == multiset(s)
    ensures |r| == |s| && forall y :: y in r <==> y in s
  {
    if s == [] then []
    else
      assert s == s[..|s| - 1] + [s[|s| - 1]];
      Insert(leq, s[|s| - 1], Sorted(leq, s[..|s| - 1]))
  }

  lemma AppendInOrder<T>(leq: (T, T) -> bool, s: seq<T>, last: T)
    requires InOrder(leq, s) && forall y :: y in s ==> leq(y, last)
    ensures InOrder(leq, s + [last])
  {
    forall i, j | 0 <= i < j < |s| + 1 ensures leq((s + [last])[i], (s + [last])[j]) { assert s[i] in s; }
  }

  lemma {:induction false} InsertInOrder<T(!new)>(leq: (T, T) -> bool, x: T, s: seq<T>)
    requires IsTotalOrder(leq) && InOrder(leq, s)
    ensures InOrder(leq, Insert(leq, x, s))
  {
    if s != [] {
      var front, last := s[..|s| - 1], s[|s| - 1];
      forall y | y in front ensures leq(y, last) { var i :| 0 <= i < |front| && front[i] == y; }
      if leq(last, x) {
        forall y | y in s ensures leq(y, x) { assert y == last || y in front; }
        AppendInOrder(leq, s, x);
      } else {
        InsertInOrder(leq, x, front);
        AppendInOrder(leq, Insert(leq, x, front), last);
      }
    }
  }

  lemma {:induction false} SortedInOrder<T(!new)>(leq: (T, T) -> bool, s: seq<T>)
    requires IsTotalOrder(leq)
    ensures InOrder(leq, Sorted(leq, s))
  {
    if s != [] {
      SortedInOrder(leq, s[..|s| - 1]);
      InsertInOrder(leq, s[|s| - 1], Sorted(leq, s[..|s| - 1]));
    }
  }
}

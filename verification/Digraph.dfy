/** Finite directed graphs, given by their sets of edges. Walks and cycles are
    sequences of nodes; the counting lemmas below turn "every node has a next
    one" into the existence of a cycle. */
module Digraph {
  type Edges<T(==)> = set<(T, T)>

  /** A non-empty sequence of nodes, consecutive ones joined by edges. */
  ghost predicate IsWalk<T>(edges: Edges<T>, p: seq<T>) {
    |p| >= 1 && forall i :: 0 <= i < |p| - 1 ==> (p[i], p[i + 1]) in edges
  }

  ghost predicate IsWalkBetween<T>(edges: Edges<T>, p: seq<T>, a: T, b: T) {
    IsWalk(edges, p) && p[0] == a && p[|p| - 1] == b
  }

  /** `b` can be reached from `a` in zero or more steps. */
  ghost predicate Reaches<T(!new)>(edges: Edges<T>, a: T, b: T) {
    exists p :: IsWalkBetween(edges, p, a, b)
  }

  ghost predicate IsCycle<T>(edges: Edges<T>, p: seq<T>) {
    |p| >= 2 && IsWalk(edges, p) && p[0] == p[|p| - 1]
  }

  ghost predicate Cyclic<T(!new)>(edges: Edges<T>) {
    exists p :: IsCycle(edges, p)
  }

  function Sources<T(==)>(edges: Edges<T>): set<T> { set e | e in edges :: e.0 }

  function Targets<T(==)>(edges: Edges<T>): set<T> { set e | e in edges :: e.1 }

  function Nodes<T(==)>(edges: Edges<T>): set<T> { Sources(edges) + Targets(edges) }

  lemma ReachesSelf<T(!new)>(edges: Edges<T>, a: T)
    ensures Reaches(edges, a, a)
  {
    assert IsWalkBetween(edges, [a], a, a);
  }

  lemma ReachesStep<T(!new)>(edges: Edges<T>, a: T, b: T, c: T)
    requires Reaches(edges, a, b) && (b, c) in edges
    ensures Reaches(edges, a, c)
  {
    var p :| IsWalkBetween(edges, p, a, b);
    assert IsWalkBetween(edges, p + [c], a, c);
  }

  /** Every node on a cycle has a predecessor on the cycle. */
  lemma CycleHasEntry<T>(edges: Edges<T>, p: seq<T>, i: nat) returns (j: nat)
    requires IsCycle(edges, p) && i < |p|
    ensures j < |p| && (p[j], p[i]) in edges
  {
    j := if i == 0 then |p| - 2 else i - 1;
    assert (p[j], p[j + 1]) in edges;
  }

  lemma CycleNode<T>(edges: Edges<T>, p: seq<T>)
    requires IsCycle(edges, p)
    ensures p[0] in Nodes(edges)
  {
    assert (p[0], p[1]) in edges;
  }

  lemma DistinctSize<T>(p: seq<T>)
    requires forall i, j :: 0 <= i < j < |p| ==> p[i] != p[j]
    ensures |set x | x in p| == |p|
  {
    if p != [] {
      var q := p[..|p| - 1];
      DistinctSize(q);
      assert (set x | x in p) == (set x | x in q) + {p[|p| - 1]};
    } else {
      assert (set x | x in p) == {};
    }
  }

  lemma SubsetSize<T>(a: set<T>, b: set<T>)
    requires a <= b
    ensures |a| <= |b|
    ensures |a| == |b| ==> a == b
  {
    assert b == a + (b - a);
  }

  /** More places than values: some value occurs twice. */
  lemma Pigeonhole<T>(p: seq<T>, S: set<T>) returns (i: nat, j: nat)
    requires |p| > |S| && forall k :: 0 <= k < |p| ==> p[k] in S
    ensures i < j < |p| && p[i] == p[j]
  {
    if forall i, j :: 0 <= i < j < |p| ==> p[i] != p[j] {
      DistinctSize(p);
      SubsetSize((set x | x in p), S);
      assert false;
    }
    i, j :| 0 <= i < j < |p| && p[i] == p[j];
  }

  /** A walk that stays in a set and is longer than the set closes a cycle. */
  lemma LongWalkIsCyclic<T(!new)>(edges: Edges<T>, p: seq<T>, S: set<T>)
    requires IsWalk(edges, p) && |p| > |S| && forall k :: 0 <= k < |p| ==> p[k] in S
    ensures Cyclic(edges)
  {
    var i, j := Pigeonhole(p, S);
    assert IsCycle(edges, p[i..j + 1]);
  }

  ghost predicate HasExit<T(!new)>(edges: Edges<T>, S: set<T>, x: T) {
    exists y :: y in S && (x, y) in edges
  }

  ghost predicate HasEntry<T(!new)>(edges: Edges<T>, S: set<T>, x: T) {
    exists y :: y in S && (y, x) in edges
  }

  lemma {:induction false} WalkForward<T(!new)>(edges: Edges<T>, S: set<T>, n: nat) returns (p: seq<T>)
    requires S != {} && forall x :: x in S ==> HasExit(edges, S, x)
    ensures IsWalk(edges, p) && |p| == n + 1 && forall k :: 0 <= k < |p| ==> p[k] in S
  {
    if n == 0 {
      var x :| x in S;
      p := [x];
    } else {
      var q := WalkForward(edges, S, n - 1);
      var y :| y in S && (q[|q| - 1], y) in edges;
      p := q + [y];
    }
  }

  lemma {:induction false} WalkBackward<T(!new)>(edges: Edges<T>, S: set<T>, n: nat) returns (p: seq<T>)
    requires S != {} && forall x :: x in S ==> HasEntry(edges, S, x)
    ensures IsWalk(edges, p) && |p| == n + 1 && forall k :: 0 <= k < |p| ==> p[k] in S
  {
    if n == 0 {
      var x :| x in S;
      p := [x];
    } else {
      var q := WalkBackward(edges, S, n - 1);
      var y :| y in S && (y, q[0]) in edges;
      p := [y] + q;
    }
  }

  /** A non-empty set no walk can leave for good contains a cycle. */
  lemma NoSinkIsCyclic<T(!new)>(edges: Edges<T>, S: set<T>)
    requires S != {} && forall x :: x in S ==> HasExit(edges, S, x)
    ensures Cyclic(edges)
  {
    var p := WalkForward(edges, S, |S|);
    LongWalkIsCyclic(edges, p, S);
  }

  lemma NoSourceIsCyclic<T(!new)>(edges: Edges<T>, S: set<T>)
    requires S != {} && forall x :: x in S ==> HasEntry(edges, S, x)
    ensures Cyclic(edges)
  {
    var p := WalkBackward(edges, S, |S|);
    LongWalkIsCyclic(edges, p, S);
  }

  /** Along acyclic edges every node reaches one that has no outgoing edge. */
  lemma ReachesSink<T(!new)>(edges: Edges<T>, a: T) returns (b: T)
    requires !Cyclic(edges)
    ensures Reaches(edges, a, b) && b !in Sources(edges)
  {
    var S := set x | x in Nodes(edges) + {a} && Reaches(edges, a, x);
    ReachesSelf(edges, a);
    assert a in S;
    if forall x :: x in S ==> HasExit(edges, S, x) {
      NoSinkIsCyclic(edges, S);
      assert false;
    }
    b :| b in S && !HasExit(edges, S, b);
    if b in Sources(edges) {
      var e :| e in edges && e.0 == b;
      ReachesStep(edges, a, b, e.1);
    }
  }
}

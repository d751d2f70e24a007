/** Two readings of one check. Validation walks a heap of dictionaries and lists that may be
    shared or cyclic; the policies look at the finite trees copied from it. */
module PlainTrees {
  import opened Wrappers
  import opened CodePoints
  import opened Digraph
  import opened PolicyEvaluation
  import A = AuthorizationData
  import J = CanonicalText

  /** The tree is what one sees from the value, following every reference. */
  ghost predicate Reads(h: A.Heap, v: A.Value, j: J.Json)
    decreases j
  {
    match j
    case Null => v.Null?
    case Bool(flag) => v == A.Flag(flag)
    case Int(number) => v == A.Integer(number)
    case Float(value) => v == A.Float(Some(value))
    case Text(text) => v == A.Text(text)
    case List(items) =>
      && v.Container? && v.id in h && h[v.id].List? && |h[v.id].items| == |items|
      && forall i :: 0 <= i < |items| ==> Reads(h, h[v.id].items[i], items[i])
    case Dict(entries) =>
      && v.Container? && v.id in h && h[v.id].Dict? && A.KeysAreText(h[v.id]) && entries.Keys == KeysOf(h[v.id])
      && forall i :: 0 <= i < |h[v.id].entries| ==> Reads(h, h[v.id].entries[i].1, entries[KeyAt(h[v.id], i)])
    case DictWithOtherKey => v.Container? && v.id in h && !A.KeysAreText(h[v.id])
    case OtherObject => v.OtherObject? || v == A.Float(None)
  }

  function KeyAt(c: A.Contents, i: nat): Str
    requires c.Dict? && A.KeysAreText(c) && i < |c.entries|
  {
    c.entries[i].0.text
  }

  function KeysOf(c: A.Contents): (ks: set<Str>)
    requires c.Dict? && A.KeysAreText(c)
    ensures forall i :: 0 <= i < |c.entries| ==> KeyAt(c, i) in ks
  {
    set i | 0 <= i < |c.entries| :: KeyAt(c, i)
  }

  /** A dictionary has each key once. */
  predicate DistinctKeys(h: A.Heap) {
    forall id :: id in h && h[id].Dict? ==>
      forall i, j :: 0 <= i < j < |h[id].entries| && h[id].entries[i].0.TextKey? ==> h[id].entries[i].0 != h[id].entries[j].0
  }

  // ------------------------------------------------------------ an accepted value has a tree

  /** The tree below a value, cut off where a container would repeat. */
  ghost function Tree(h: A.Heap, v: A.Value, ancestors: set<A.Ref>): J.Json
    requires A.Closed(h) && A.Known(h, v) && DistinctKeys(h)
    decreases |h.Keys - ancestors|, 0
  {
    match v
    case Null => J.Null
    case Text(text) => J.Text(text)
    case Flag(flag) => J.Bool(flag)
    case Integer(number) => J.Int(number)
    case Float(value) => if value.Some? then J.Float(value.value) else J.OtherObject
    case OtherObject => J.OtherObject
    case Container(id) =>
      if id in ancestors then J.OtherObject
      else
        FewerLeft(h, ancestors, id);
        KnownChildren(h, id);
        match h[id]
        case List(items) => J.List(seq(|items|, i requires 0 <= i < |items| => Tree(h, items[i], ancestors + {id})))
        case Dict(entries) =>
          if !A.KeysAreText(h[id]) then J.DictWithOtherKey
          else J.Dict(TreeEntries(h, id, ancestors + {id}))
  }

  ghost function TreeEntries(h: A.Heap, id: A.Ref, ancestors: set<A.Ref>): (entries: map<Str, J.Json>)
    requires A.Closed(h) && id in h && h[id].Dict? && A.KeysAreText(h[id]) && DistinctKeys(h)
    requires forall i :: 0 <= i < |h[id].entries| ==> A.Known(h, h[id].entries[i].1)
    ensures entries.Keys == KeysOf(h[id])
    ensures forall i :: 0 <= i < |h[id].entries| ==> entries[KeyAt(h[id], i)] == Tree(h, h[id].entries[i].1, ancestors)
    decreases |h.Keys - ancestors|, 1
  {
    map i | 0 <= i < |h[id].entries| :: KeyAt(h[id], i) := Tree(h, h[id].entries[i].1, ancestors)
  }

  lemma FewerLeft(h: A.Heap, ancestors: set<A.Ref>, id: A.Ref)
    requires id in h && id !in ancestors
    ensures |h.Keys - (ancestors + {id})| < |h.Keys - ancestors|
  {
    SubsetSize(h.Keys - (ancestors + {id}), h.Keys - ancestors);
    assert id in h.Keys - ancestors;
  }

  lemma KnownChildren(h: A.Heap, id: A.Ref)
    requires A.Closed(h) && id in h
    ensures h[id].List? ==> forall i :: 0 <= i < |h[id].items| ==> A.Known(h, h[id].items[i])
    ensures h[id].Dict? ==> forall i :: 0 <= i < |h[id].entries| ==> A.Known(h, h[id].entries[i].1)
  {
    assert forall i :: 0 <= i < |A.Children(h[id])| ==> A.Known(h, A.Children(h[id])[i]);
    if h[id].Dict? {
      forall i | 0 <= i < |h[id].entries| ensures A.Known(h, h[id].entries[i].1) { assert A.Children(h[id])[i] == h[id].entries[i].1; }
    } else {
      forall i | 0 <= i < |h[id].items| ensures A.Known(h, h[id].items[i]) { assert A.Children(h[id])[i] == h[id].items[i]; }
    }
  }

  lemma {:induction false} EachPasses(h: A.Heap, vs: seq<A.Value>, ancestors: set<A.Ref>, i: nat)
    requires A.Closed(h) && (forall k :: 0 <= k < |vs| ==> A.Known(h, vs[k]))
    requires A.CheckAll(h, vs, ancestors) == None && i < |vs|
    ensures A.Check(h, vs[i], ancestors) == None
    decreases |vs|
  {
    if i < |vs| - 1 { EachPasses(h, vs[..|vs| - 1], ancestors, i); }
  }

  ghost predicate ReadsTree(h: A.Heap, v: A.Value, ancestors: set<A.Ref>)
    requires A.Closed(h) && DistinctKeys(h)
  {
    A.Known(h, v) && Reads(h, v, Tree(h, v, ancestors)) && PlainData(Tree(h, v, ancestors))
  }

  lemma {:induction false} PassedHasTree(h: A.Heap, v: A.Value, ancestors: set<A.Ref>)
    requires A.Closed(h) && A.Known(h, v) && DistinctKeys(h) && A.Check(h, v, ancestors) == None
    ensures ReadsTree(h, v, ancestors)
    decreases |h.Keys - ancestors|
  {
    if v.Container? {
      FewerLeft(h, ancestors, v.id);
      KnownChildren(h, v.id);
      var vs := A.Children(h[v.id]);
      forall i | 0 <= i < |vs| ensures ReadsTree(h, vs[i], ancestors + {v.id}) {
        EachPasses(h, vs, ancestors + {v.id}, i);
        PassedHasTree(h, vs[i], ancestors + {v.id});
      }
      ContainerTree(h, v.id, ancestors);
    }
  }

  lemma ContainerTree(h: A.Heap, id: A.Ref, ancestors: set<A.Ref>)
    requires A.Closed(h) && DistinctKeys(h) && id in h && id !in ancestors && A.KeysAreText(h[id])
    requires forall i :: 0 <= i < |A.Children(h[id])| ==> ReadsTree(h, A.Children(h[id])[i], ancestors + {id})
    ensures ReadsTree(h, A.Container(id), ancestors)
  {
    hide A.Closed, A.KeysAreText, DistinctKeys;
    KnownChildren(h, id);
    if h[id].Dict? {
      var inside := ancestors + {id};
      var entries := TreeEntries(h, id, inside);
      forall i | 0 <= i < |h[id].entries| ensures Reads(h, h[id].entries[i].1, entries[KeyAt(h[id], i)]) && PlainData(entries[KeyAt(h[id], i)]) {
        assert A.Children(h[id])[i] == h[id].entries[i].1;
        assert ReadsTree(h, A.Children(h[id])[i], inside);
      }
    } else {
      assert A.Children(h[id]) == h[id].items;
      ListTree(h, id, ancestors);
    }
  }

  lemma ListTree(h: A.Heap, id: A.Ref, ancestors: set<A.Ref>)
    requires A.Closed(h) && DistinctKeys(h) && id in h && id !in ancestors && h[id].List?
    requires forall i :: 0 <= i < |h[id].items| ==> ReadsTree(h, h[id].items[i], ancestors + {id})
    ensures ReadsTree(h, A.Container(id), ancestors)
  {
    hide A.Closed, DistinctKeys;
  }

  // ------------------------------------------------------------ a value with a tree is accepted

  /** What is inside a value with a plain tree has a plain tree, a smaller one. */
  lemma ChildHasTree(h: A.Heap, v: A.Value, j: J.Json, c: A.Value) returns (k: J.Json)
    requires Reads(h, v, j) && PlainData(j) && v.Container? && v.id in h && c in A.Children(h[v.id])
    ensures (j.List? && k in j.items) || (j.Dict? && exists key :: key in j.entries && j.entries[key] == k)
    ensures Reads(h, c, k) && PlainData(k)
  {
    var i :| 0 <= i < |A.Children(h[v.id])| && A.Children(h[v.id])[i] == c;
    if j.List? {
      k := j.items[i];
    } else {
      k := j.entries[KeyAt(h[v.id], i)];
    }
  }

  /** Following a cycle would follow the finite tree down for ever. */
  lemma {:induction false} NoCycleAt(h: A.Heap, v: A.Value, j: J.Json, cycle: seq<A.Ref>)
    requires Reads(h, v, j) && PlainData(j) && v.Container?
    requires IsCycle(A.Contains(h), cycle) && cycle[0] == v.id
    ensures false
    decreases j
  {
    assert (cycle[0], cycle[1]) in A.Contains(h);
    var k := ChildHasTree(h, v, j, A.Container(cycle[1]));
    var turned := cycle[1..] + [cycle[1]];
    TurnedCycle(A.Contains(h), cycle);
    NoCycleAt(h, A.Container(cycle[1]), k, turned);
  }

  lemma TurnedCycle(edges: Edges<A.Ref>, cycle: seq<A.Ref>)
    requires IsCycle(edges, cycle)
    ensures IsCycle(edges, cycle[1..] + [cycle[1]])
  {
    var turned := cycle[1..] + [cycle[1]];
    forall i | 0 <= i < |turned| - 1 ensures (turned[i], turned[i + 1]) in edges {
      assert (cycle[0], cycle[1]) in edges;
      if i < |cycle| - 2 { assert (cycle[i + 1], cycle[i + 2]) in edges; }
    }
  }

  lemma {:induction false} TreeAlong(h: A.Heap, v: A.Value, j: J.Json, p: seq<A.Ref>) returns (k: J.Json)
    requires Reads(h, v, j) && PlainData(j) && v.Container? && A.WalkFrom(h, v.id, p)
    ensures Reads(h, A.Container(p[|p| - 1]), k) && PlainData(k)
    decreases |p|
  {
    if |p| == 1 {
      k := j;
    } else {
      var above := TreeAlong(h, v, j, p[..|p| - 1]);
      assert (p[|p| - 2], p[|p| - 1]) in A.Contains(h);
      k := ChildHasTree(h, A.Container(p[|p| - 2]), above, A.Container(p[|p| - 1]));
    }
  }

  lemma GoodAt(h: A.Heap, id: A.Ref, j: J.Json)
    requires Reads(h, A.Container(id), j) && PlainData(j)
    ensures id in h && A.KeysAreText(h[id]) && !A.BadLeaf(h, id)
  {
    forall c | c in A.Children(h[id]) && !c.Container? ensures A.AllowedLeaf(c) {
      var k := ChildHasTree(h, A.Container(id), j, c);
    }
  }

  lemma TreeIsAccepted(h: A.Heap, v: A.Value, j: J.Json)
    requires Reads(h, v, j) && PlainData(j)
    ensures A.Acceptable(h, v)
  {
    hide Reads, PlainData, A.Contains;
    forall id | A.ReachableFrom(h, v, id) ensures id in h && A.KeysAreText(h[id]) && !A.BadLeaf(h, id) {
      var p :| IsWalkBetween(A.Contains(h), p, v.id, id);
      var k := TreeAlong(h, v, j, p);
      GoodAt(h, id, k);
    }
    forall c | IsCycle(A.Contains(h), c) ensures !A.ReachableFrom(h, v, c[0]) {
      if A.ReachableFrom(h, v, c[0]) {
        var p :| IsWalkBetween(A.Contains(h), p, v.id, c[0]);
        var k := TreeAlong(h, v, j, p);
        NoCycleAt(h, A.Container(c[0]), k, c);
      }
    }
    if !v.Container? { LeafIsAllowed(h, v, j); }
  }

  lemma LeafIsAllowed(h: A.Heap, v: A.Value, j: J.Json)
    requires Reads(h, v, j) && PlainData(j) && !v.Container?
    ensures A.AllowedLeaf(v)
  {}

  /** The walk over the heap accepts a value exactly when a finite plain tree can be read from
      it: the tree that the policies then find plain. */
  lemma AcceptedExactlyWhenTree(h: A.Heap, v: A.Value)
    requires A.Closed(h) && A.Known(h, v) && DistinctKeys(h)
    ensures A.Acceptable(h, v) <==> exists j :: Reads(h, v, j) && PlainData(j)
  {
    hide Reads, PlainData, A.Acceptable;
    A.CheckMeaning(h, v);
    if A.Acceptable(h, v) { PassedHasTree(h, v, {}); }
    if j :| Reads(h, v, j) && PlainData(j) { TreeIsAccepted(h, v, j); }
  }
}

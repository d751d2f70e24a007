/** Which revision of an instrument specification applies at an economic time,
    according to one source's lifecycle assertions. Supersession edges are
    checked for cycles with Kahn's algorithm. */
module SupersessionResolver {
  import opened Wrappers
  import opened Digraph
  import opened LifecycleEvidence

  // ---------------------------------------------------------------- Kahn's algorithm

  /** The edges into `n` whose sources have not been visited. */
  ghost function Waiting(edges: Edges<Revision>, visited: set<Revision>, n: Revision): set<(Revision, Revision)> {
    set e | e in edges && e.1 == n && e.0 !in visited
  }

  ghost function InDegree(edges: Edges<Revision>, visited: set<Revision>, n: Revision): nat {
    |Waiting(edges, visited, n)|
  }

  /** The counters hold, for every node, the number of its unvisited predecessors;
      those in `early` still count one predecessor too many. */
  ghost predicate Counts(edges: Edges<Revision>, visited: set<Revision>, early: set<Revision>, indegree: map<Revision, nat>) {
    && indegree.Keys == Nodes(edges)
    && forall n :: n in indegree ==> indegree[n] == InDegree(edges, visited, n) + (if n in early then 1 else 0)
  }

  lemma AddedEdge(edges: Edges<Revision>, edge: (Revision, Revision), n: Revision)
    requires edge !in edges
    ensures InDegree(edges + {edge}, {}, n) == InDegree(edges, {}, n) + (if n == edge.1 then 1 else 0)
  {
    assert Waiting(edges + {edge}, {}, n) == Waiting(edges, {}, n) + (if n == edge.1 then {edge} else {});
  }

  lemma UnknownNode(edges: Edges<Revision>, n: Revision)
    requires n !in Nodes(edges)
    ensures InDegree(edges, {}, n) == 0
  {
    assert Waiting(edges, {}, n) == {};
  }

  lemma VisitedNode(edges: Edges<Revision>, visited: set<Revision>, node: Revision, n: Revision)
    requires node !in visited
    ensures InDegree(edges, visited, n) == InDegree(edges, visited + {node}, n) + (if (node, n) in edges then 1 else 0)
  {
    assert Waiting(edges, visited, n) == Waiting(edges, visited + {node}, n) + (if (node, n) in edges then {(node, n)} else {});
  }

  lemma NothingWaiting(edges: Edges<Revision>, visited: set<Revision>, n: Revision, a: Revision)
    requires InDegree(edges, visited, n) == 0 && (a, n) in edges
    ensures a in visited
  {
    assert Waiting(edges, visited, n) == {};
    assert (a, n) !in Waiting(edges, visited, n);
  }

  lemma SomethingWaiting(edges: Edges<Revision>, visited: set<Revision>, n: Revision) returns (a: Revision)
    requires InDegree(edges, visited, n) > 0
    ensures (a, n) in edges && a !in visited
  {
    var e :| e in Waiting(edges, visited, n);
    a := e.0;
  }

  /** Counting one more edge. */
  function Counted(indegree: map<Revision, nat>, edge: (Revision, Revision)): map<Revision, nat> {
    var (before, after) := edge;
    var known := if before in indegree then indegree else indegree[before := 0];
    known[after := (if after in known then known[after] else 0) + 1]
  }

  lemma CountedCounts(edges: Edges<Revision>, edge: (Revision, Revision), indegree: map<Revision, nat>)
    requires edge !in edges && Counts(edges, {}, {}, indegree)
    ensures Counts(edges + {edge}, {}, {}, Counted(indegree, edge))
  {
    var next := Counted(indegree, edge);
    assert Nodes(edges + {edge}) == Nodes(edges) + {edge.0, edge.1};
    forall n | n in next ensures next[n] == InDegree(edges + {edge}, {}, n) {
      AddedEdge(edges, edge, n);
      if n !in indegree { UnknownNode(edges, n); }
    }
  }

  /** Successor sets and indegrees of every node, one edge at a time. */
  method CountEdges(edges: Edges<Revision>)
    returns (successors: map<Revision, set<Revision>>, indegree: map<Revision, nat>)
    ensures Lists(successors, edges)
    ensures Counts(edges, {}, {}, indegree)
  {
    hide Counts, Counted, Lists;
    successors, indegree := map[], map[];
    var rest := edges;
    ghost var seen: Edges<Revision> := {};
    NothingCounted();
    while rest != {}
      invariant rest <= edges && seen == edges - rest
      invariant Lists(successors, seen)
      invariant Counts(seen, {}, {}, indegree)
    {
      var edge :| edge in rest;
      var (before, after) := edge;
      CountedCounts(seen, edge, indegree);
      ListedMore(successors, seen, before, after);
      successors := successors[before := (if before in successors then successors[before] else {}) + {after}];
      indegree := Counted(indegree, edge);
      rest, seen := rest - {edge}, seen + {edge};
    }
    assert seen == edges;
  }

  /** The successors of each node, as the edges have them. */
  ghost predicate Lists(successors: map<Revision, set<Revision>>, edges: Edges<Revision>) {
    forall a, b :: a in successors && b in successors[a] <==> (a, b) in edges
  }

  lemma NothingCounted()
    ensures Lists(map[], {}) && Counts({}, {}, {}, map[])
  {}

  lemma ListedMore(successors: map<Revision, set<Revision>>, edges: Edges<Revision>, before: Revision, after: Revision)
    requires Lists(successors, edges)
    ensures Lists(successors[before := (if before in successors then successors[before] else {}) + {after}], edges + {(before, after)})
  {}

  /** The targets looked up for a node are its successors. */
  lemma ListedTargets(successors: map<Revision, set<Revision>>, edges: Edges<Revision>, node: Revision)
    requires Lists(successors, edges)
    ensures forall b :: b in (if node in successors then successors[node] else {}) <==> (node, b) in edges
  {}

  ghost predicate Distinct<T>(s: seq<T>) { forall i, j :: 0 <= i < j < |s| ==> s[i] != s[j] }

  /** The queue holds exactly the unvisited nodes without unvisited predecessors, once each. */
  ghost predicate Queued(visited: set<Revision>, indegree: map<Revision, nat>, ready: seq<Revision>) {
    && Distinct(ready)
    && forall n :: n in ready <==> n in indegree && n !in visited && indegree[n] == 0
  }

  method ReadyNodes(indegree: map<Revision, nat>) returns (ready: seq<Revision>)
    ensures Queued({}, indegree, ready)
  {
    ready := [];
    var rest := indegree.Keys;
    while rest != {}
      invariant rest <= indegree.Keys && Distinct(ready)
      invariant forall n :: n in ready <==> n in indegree.Keys - rest && indegree[n] == 0
    {
      var node :| node in rest;
      rest := rest - {node};
      if indegree[node] == 0 { ready := ready + [node]; }
    }
  }

  lemma ReleaseOne(edges: Edges<Revision>, visited: set<Revision>, rest: set<Revision>, successor: Revision,
                   indegree: map<Revision, nat>, ready: seq<Revision>)
    requires Counts(edges, visited, rest, indegree) && Queued(visited, indegree, ready)
    requires successor in rest && successor in indegree && successor !in visited
    ensures indegree[successor] >= 1
    ensures var next := indegree[successor := indegree[successor] - 1];
            && Counts(edges, visited, rest - {successor}, next)
            && Queued(visited, next, if next[successor] == 0 then ready + [successor] else ready)
  {
    var next := indegree[successor := indegree[successor] - 1];
    var queue := if next[successor] == 0 then ready + [successor] else ready;
    assert successor !in ready;
    assert forall n :: n in queue <==> n in ready || (n == successor && next[successor] == 0);
  }

  /** The inner loop: a node just visited releases each of its successors. */
  method Release(edges: Edges<Revision>, ghost visited: set<Revision>, targets: set<Revision>,
                 indegree0: map<Revision, nat>, ready0: seq<Revision>)
    returns (indegree: map<Revision, nat>, ready: seq<Revision>)
    requires Counts(edges, visited, targets, indegree0) && Queued(visited, indegree0, ready0)
    requires targets <= indegree0.Keys - visited
    ensures Counts(edges, visited, {}, indegree) && Queued(visited, indegree, ready)
  {
    indegree, ready := indegree0, ready0;
    var rest := targets;
    while rest != {}
      invariant rest <= targets && indegree.Keys == indegree0.Keys
      invariant Counts(edges, visited, rest, indegree) && Queued(visited, indegree, ready)
    {
      var successor :| successor in rest;
      ReleaseOne(edges, visited, rest, successor, indegree, ready);
      rest := rest - {successor};
      indegree := indegree[successor := indegree[successor] - 1];
      if indegree[successor] == 0 { ready := ready + [successor]; }
    }
  }

  /** No cycle passes through a visited node. */
  ghost predicate OffCycles(edges: Edges<Revision>, visited: set<Revision>) {
    forall p, i :: IsCycle(edges, p) && 0 <= i < |p| ==> p[i] !in visited
  }

  lemma VisitKeepsOffCycles(edges: Edges<Revision>, visited: set<Revision>, node: Revision)
    requires OffCycles(edges, visited) && InDegree(edges, visited, node) == 0
    ensures OffCycles(edges, visited + {node})
  {
    forall p, i | IsCycle(edges, p) && 0 <= i < |p| ensures p[i] !in visited + {node} {
      if p[i] == node {
        var j := CycleHasEntry(edges, p, i);
        NothingWaiting(edges, visited, node, p[j]);
      }
    }
  }

  lemma VisitCounts(edges: Edges<Revision>, visited: set<Revision>, node: Revision, targets: set<Revision>,
                    indegree: map<Revision, nat>)
    requires Counts(edges, visited, {}, indegree) && node in indegree && node !in visited && indegree[node] == 0
    requires forall b :: b in targets <==> (node, b) in edges
    requires forall n :: n in visited ==> InDegree(edges, visited, n) == 0
    ensures Counts(edges, visited + {node}, targets, indegree)
    ensures targets <= Nodes(edges) - (visited + {node})
    ensures forall n :: n in visited + {node} ==> InDegree(edges, visited + {node}, n) == 0
  {
    forall n ensures InDegree(edges, visited, n) == InDegree(edges, visited + {node}, n) + (if n in targets then 1 else 0) {
      VisitedNode(edges, visited, node, n);
    }
    forall b | b in targets ensures b in Nodes(edges) { assert (node, b) in edges; }
  }

  /** All nodes visited: no cycle.  Some left over: each still waits for another one left over. */
  lemma Exhausted(edges: Edges<Revision>, visited: set<Revision>)
    requires visited <= Nodes(edges) && OffCycles(edges, visited)
    requires forall n :: n in Nodes(edges) - visited ==> InDegree(edges, visited, n) > 0
    ensures visited == Nodes(edges) <==> !Cyclic(edges)
  {
    var left := Nodes(edges) - visited;
    if left == {} {
      forall n | n in Nodes(edges) ensures n in visited { assert n !in left; }
      forall p ensures !IsCycle(edges, p) { if IsCycle(edges, p) { CycleNode(edges, p); } }
    } else {
      forall n | n in left ensures HasEntry(edges, left, n) {
        var a := SomethingWaiting(edges, visited, n);
        assert a in Nodes(edges);
      }
      NoSourceIsCyclic(edges, left);
    }
  }

  /** Between two visits. */
  ghost predicate Traversed(edges: Edges<Revision>, done: set<Revision>, indegree: map<Revision, nat>, ready: seq<Revision>) {
    && done <= Nodes(edges) && OffCycles(edges, done)
    && Counts(edges, done, {}, indegree) && Queued(done, indegree, ready)
    && forall n :: n in done ==> InDegree(edges, done, n) == 0
  }

  lemma VisitFirst(edges: Edges<Revision>, done: set<Revision>, indegree: map<Revision, nat>, ready: seq<Revision>, targets: set<Revision>)
    requires Traversed(edges, done, indegree, ready) && ready != []
    requires forall b :: b in targets <==> (ready[0], b) in edges
    ensures var node := ready[0];
      && node in Nodes(edges) - done && OffCycles(edges, done + {node})
      && Counts(edges, done + {node}, targets, indegree) && Queued(done + {node}, indegree, ready[1..])
      && targets <= indegree.Keys - (done + {node})
      && forall n :: n in done + {node} ==> InDegree(edges, done + {node}, n) == 0
  {
    var node := ready[0];
    assert node in ready;
    VisitCounts(edges, done, node, targets, indegree);
    VisitKeepsOffCycles(edges, done, node);
    QueueRest(done, indegree, ready);
  }

  lemma TraversalEnd(edges: Edges<Revision>, done: set<Revision>, indegree: map<Revision, nat>)
    requires Traversed(edges, done, indegree, [])
    ensures |done| != |indegree| <==> Cyclic(edges)
  {
    forall n | n in Nodes(edges) - done ensures InDegree(edges, done, n) > 0 { assert n in indegree; }
    Exhausted(edges, done);
    SubsetSize(done, Nodes(edges));
    assert |indegree| == |indegree.Keys|;
  }

  lemma TraversalBegin(edges: Edges<Revision>, indegree: map<Revision, nat>, ready: seq<Revision>)
    requires Counts(edges, {}, {}, indegree) && Queued({}, indegree, ready)
    ensures Traversed(edges, {}, indegree, ready)
  {}

  /** Kahn's traversal reports a cycle exactly when the edges contain one. */
  method HasCycle(edges: Edges<Revision>) returns (cyclic: bool)
    ensures cyclic <==> Cyclic(edges)
  {
    hide Lists, Counts, Cyclic, Nodes;
    var successors, indegree := CountEdges(edges);
    var ready := ReadyNodes(indegree);
    TraversalBegin(edges, indegree, ready);
    var visited := 0;
    ghost var done: set<Revision> := {};
    while ready != []
      invariant Traversed(edges, done, indegree, ready) && visited == |done|
      decreases Nodes(edges) - done
    {
      var node := ready[0];
      var targets := if node in successors then successors[node] else {};
      ListedTargets(successors, edges, node);
      VisitFirst(edges, done, indegree, ready, targets);
      visited, done := visited + 1, done + {node};
      indegree, ready := Release(edges, done, targets, indegree, ready[1..]);
    }
    TraversalEnd(edges, done, indegree);
    cyclic := visited != |indegree|;
  }

  lemma QueueRest(visited: set<Revision>, indegree: map<Revision, nat>, ready: seq<Revision>)
    requires ready != [] && Queued(visited, indegree, ready)
    ensures Queued(visited + {ready[0]}, indegree, ready[1..])
  {
    assert forall n :: n in ready <==> n == ready[0] || n in ready[1..];
  }

  // ---------------------------------------------------------------- resolution

  datatype Coverage = CompleteThrough(informationCutoff: int) | Limited | UnknownCoverage

  datatype Reason =
    | CoverageLimited | CoverageUnknown | CutoffBeforeKnowledgeBoundary
    | CorrectionOfCorrection | MultipleCorrections
    | ActiveSupersessionCycle | WithdrawalConflict | EffectiveStartConflict
    | MultipleApplicableCandidates

  datatype Resolution = Unresolved(reasons: seq<Reason>) | UniqueApplicable(revision: Revision) | NoApplicable

  /** What the lifecycle and metadata validators guarantee before resolution. */
  ghost predicate Validated(rows: seq<Assertion>, effectiveAt: map<Revision, int>) {
    && DistinctIds(rows)
    && (forall row :: row in rows ==> Fault(Rows(rows), row) == None)
    && (forall claim, row :: row in rows && Mentions(row, claim) ==> References(claim) <= effectiveAt.Keys)
  }

  function References(claim: Claim): set<Revision> {
    if claim.Supersedes? then {claim.predecessor, claim.successor} else {claim.revision}
  }

  predicate Mentions(row: Assertion, claim: Claim) {
    row.statement == Asserts(claim) || (row.statement.Corrects? && row.statement.replacement == Some(claim))
  }

  ghost predicate IsCorrectionOf(row: Assertion, original: Assertion) {
    row.statement.Corrects? && row.statement.target == original.id
  }

  /** The source's claim after corrections: an uncorrected claim, or the replacement of a corrected one. */
  ghost predicate Stands(rows: set<Assertion>, claim: Claim) {
    || (exists row :: row in rows && row.statement == Asserts(claim) && !exists c :: c in rows && IsCorrectionOf(c, row))
    || (exists c, row :: c in rows && row in rows && row.statement.Asserts? && IsCorrectionOf(c, row)
                         && c.statement.replacement == Some(claim))
  }

  predicate InForce(scope: Scope, economic: int) {
    scope.effectiveFrom <= economic && (scope.effectiveUntil.Some? ==> economic < scope.effectiveUntil.value)
  }

  ghost predicate Active(rows: set<Assertion>, economic: int, claim: Claim) {
    Stands(rows, claim) && InForce(claim.scope, economic)
  }

  /** The sets of revisions and edges that a collection of active claims amounts to. */
  datatype Sides = Sides(positive: set<Revision>, displaced: set<Revision>, withdrawn: set<Revision>, edges: Edges<Revision>)

  function Include(sides: Sides, claim: Claim): Sides {
    match claim
    case Supersedes(before, after, _) =>
      sides.(positive := sides.positive + {after}, displaced := sides.displaced + {before},
             edges := sides.edges + {(before, after)})
    case Applies(revision, _) => sides.(positive := sides.positive + {revision})
    case Withdraws(revision, _) => sides.(withdrawn := sides.withdrawn + {revision})
  }

  /** Independent description of the four sets for a given notion of active claim. */
  ghost predicate Describes(active: iset<Claim>, sides: Sides) {
    && (forall a, b :: (a, b) in sides.edges <==> exists s :: Supersedes(a, b, s) in active)
    && (forall r :: r in sides.positive <==> r in Targets(sides.edges) || exists s :: Applies(r, s) in active)
    && (forall r :: r in sides.displaced <==> r in Sources(sides.edges))
    && (forall r :: r in sides.withdrawn <==> exists s :: Withdraws(r, s) in active)
  }

  lemma DescriptionIsUnique(active: iset<Claim>, a: Sides, b: Sides)
    requires Describes(active, a) && Describes(active, b)
    ensures a == b
  {
    forall e ensures e in a.edges <==> e in b.edges { assert e == (e.0, e.1); }
    assert a.positive == b.positive && a.displaced == b.displaced && a.withdrawn == b.withdrawn;
  }

  lemma IncludeDescribes(active: iset<Claim>, sides: Sides, claim: Claim)
    requires Describes(active, sides)
    ensures Describes(active + iset{claim}, Include(sides, claim))
  {
    var next := Include(sides, claim);
    assert claim.Supersedes? ==> Targets(next.edges) == Targets(sides.edges) + {claim.successor};
    assert claim.Supersedes? ==> Sources(next.edges) == Sources(sides.edges) + {claim.predecessor};
    forall a, b ensures (a, b) in next.edges <==> exists s :: Supersedes(a, b, s) in active + iset{claim} {
      if (a, b) in sides.edges { var s :| Supersedes(a, b, s) in active; assert Supersedes(a, b, s) in active + iset{claim}; }
      else if (a, b) in next.edges { assert Supersedes(a, b, claim.scope) in active + iset{claim}; }
    }
    forall r ensures r in next.withdrawn <==> exists s :: Withdraws(r, s) in active + iset{claim} {
      if r in sides.withdrawn { var s :| Withdraws(r, s) in active; assert Withdraws(r, s) in active + iset{claim}; }
      else if r in next.withdrawn { assert Withdraws(r, claim.scope) in active + iset{claim}; }
    }
    forall r ensures r in next.positive <==> r in Targets(next.edges) || exists s :: Applies(r, s) in active + iset{claim} {
      if s :| Applies(r, s) in active { assert Applies(r, s) in active + iset{claim}; }
      else if claim.Applies? && r == claim.revision { assert Applies(r, claim.scope) in active + iset{claim}; }
    }
  }

  // ------------------------------------------------------------ what the outcome means

  ghost predicate CorrectsCorrection(rows: set<Assertion>, c: Assertion) {
    exists row :: row in rows && IsCorrectionOf(c, row) && row.statement.Corrects?
  }

  ghost predicate NestedCorrection(rows: set<Assertion>) {
    exists c :: c in rows && CorrectsCorrection(rows, c)
  }

  ghost predicate RepeatedCorrection(rows: set<Assertion>) {
    exists a, b :: a in rows && b in rows && a != b && a.statement.Corrects? && b.statement.Corrects?
                   && a.statement.target == b.statement.target
  }

  function When(condition: bool, reason: Reason): seq<Reason> { if condition then [reason] else [] }

  predicate StartsLater(sides: Sides, effectiveAt: map<Revision, int>, economic: int) {
    exists r :: r in sides.positive && r in effectiveAt && effectiveAt[r] > economic
  }

  ghost predicate Conflicting(sides: Sides, effectiveAt: map<Revision, int>, economic: int) {
    Cyclic(sides.edges) || sides.positive * sides.withdrawn != {} || StartsLater(sides, effectiveAt, economic)
  }

  /** The outcome for given sets of active revisions and edges. */
  ghost function Decide(sides: Sides, effectiveAt: map<Revision, int>, economic: int): Resolution {
    var reasons := When(Cyclic(sides.edges), ActiveSupersessionCycle)
                 + When(sides.positive * sides.withdrawn != {}, WithdrawalConflict)
                 + When(StartsLater(sides, effectiveAt, economic), EffectiveStartConflict);
    var candidates := sides.positive - sides.displaced;
    if reasons != [] then Unresolved(reasons)
    else if |candidates| > 1 then Unresolved([MultipleApplicableCandidates])
    else if r :| candidates == {r} then UniqueApplicable(r)
    else NoApplicable
  }

  /** The outcome for a whole collection of assertions, whatever their order. */
  ghost predicate Resolves(rows: set<Assertion>, effectiveAt: map<Revision, int>, coverage: Coverage,
                           economic: int, boundary: int, outcome: Resolution) {
    var structural := When(NestedCorrection(rows), CorrectionOfCorrection) + When(RepeatedCorrection(rows), MultipleCorrections);
    if coverage.Limited? then outcome == Unresolved([CoverageLimited])
    else if coverage.UnknownCoverage? then outcome == Unresolved([CoverageUnknown])
    else if coverage.informationCutoff < boundary then outcome == Unresolved([CutoffBeforeKnowledgeBoundary])
    else if structural != [] then outcome == Unresolved(structural)
    else exists sides ::
      Describes(ActiveClaims(rows, economic), sides) && sides.positive <= effectiveAt.Keys && outcome == Decide(sides, effectiveAt, economic)
  }

  ghost function ActiveClaims(rows: set<Assertion>, economic: int): iset<Claim> {
    iset claim | Active(rows, economic, claim)
  }

  /** At most one outcome: the order of the assertions and of the sets cannot matter. */
  lemma OutcomeIsUnique(rows: set<Assertion>, effectiveAt: map<Revision, int>, coverage: Coverage,
                        economic: int, boundary: int, a: Resolution, b: Resolution)
    requires Resolves(rows, effectiveAt, coverage, economic, boundary, a)
    requires Resolves(rows, effectiveAt, coverage, economic, boundary, b)
    ensures a == b
  {
    forall x, y | Describes(ActiveClaims(rows, economic), x) && Describes(ActiveClaims(rows, economic), y) ensures x == y {
      DescriptionIsUnique(ActiveClaims(rows, economic), x, y);
    }
  }

  ghost predicate Coherent(sides: Sides) {
    sides.displaced == Sources(sides.edges) && Targets(sides.edges) <= sides.positive
  }

  /** Without a cycle every positive revision is superseded, in zero or more steps, by a candidate. */
  lemma CandidateReached(sides: Sides, a: Revision) returns (b: Revision)
    requires Coherent(sides) && !Cyclic(sides.edges) && a in sides.positive
    ensures b in sides.positive - sides.displaced && Reaches(sides.edges, a, b)
  {
    b := ReachesSink(sides.edges, a);
    ReachedIsPositive(sides, a, b);
  }

  lemma ReachedIsPositive(sides: Sides, a: Revision, b: Revision)
    requires Coherent(sides) && a in sides.positive && Reaches(sides.edges, a, b)
    ensures b in sides.positive
  {
    var p :| IsWalkBetween(sides.edges, p, a, b);
    if |p| > 1 { assert (p[|p| - 2], p[|p| - 1]) in sides.edges; }
  }

  lemma LeavingNeedsAnEdge(edges: Edges<Revision>, a: Revision, b: Revision)
    requires Reaches(edges, a, b) && a != b
    ensures a in Sources(edges)
  {
    var p :| IsWalkBetween(edges, p, a, b);
    assert (p[0], p[1]) in edges;
  }

  /** A unique revision is established exactly when nothing conflicts and one
      positive revision supersedes all the others, directly or through a chain. */
  lemma UniqueExactlyWhen(sides: Sides, effectiveAt: map<Revision, int>, economic: int, r: Revision)
    requires Coherent(sides)
    ensures Decide(sides, effectiveAt, economic) == UniqueApplicable(r) <==>
      && !Conflicting(sides, effectiveAt, economic)
      && r in sides.positive && forall a :: a in sides.positive ==> Reaches(sides.edges, a, r)
  {
    var candidates := sides.positive - sides.displaced;
    if !Conflicting(sides, effectiveAt, economic) {
      if candidates == {r} {
        forall a | a in sides.positive ensures Reaches(sides.edges, a, r) { var b := CandidateReached(sides, a); }
      }
      if r in sides.positive && forall a :: a in sides.positive ==> Reaches(sides.edges, a, r) {
        var b := CandidateReached(sides, r);
        forall c | c in candidates ensures c == r { if c != r { LeavingNeedsAnEdge(sides.edges, c, r); } }
        assert candidates == {r};
      }
      OneOrMany(candidates);
    }
  }

  lemma OneOrMany(s: set<Revision>)
    ensures |s| <= 1 <==> s == {} || exists r :: s == {r}
  {
    if s != {} {
      var r :| r in s;
      assert s == {r} + (s - {r});
      if |s| == 1 { assert s == {r}; }
    }
  }

  /** "No applicable revision" is reported exactly when no active claim is positive. */
  lemma NoneExactlyWhen(sides: Sides, effectiveAt: map<Revision, int>, economic: int)
    requires Coherent(sides)
    ensures Decide(sides, effectiveAt, economic) == NoApplicable <==> sides.positive == {}
  {
    OneOrMany(sides.positive - sides.displaced);
    assert forall e :: e in sides.edges ==> e.1 in Targets(sides.edges);
    if sides.positive == {} {
      forall p ensures !IsCycle(sides.edges, p) {
        if IsCycle(sides.edges, p) { CycleNode(sides.edges, p); }
      }
    } else if !Cyclic(sides.edges) {
      var a :| a in sides.positive;
      var b := CandidateReached(sides, a);
    }
  }

  /** The corrections of each assertion, and whether one of them corrects a correction. */
  method GroupCorrections(rows: seq<Assertion>, assertions: map<string, Assertion>)
    returns (corrections: map<string, seq<Assertion>>, nested: bool)
    requires DistinctIds(rows)
    requires forall row :: row in rows ==> Fault(Rows(rows), row) == None
    requires Indexes(assertions, rows)
    ensures Groups(rows, corrections)
    ensures nested <==> NestedCorrection(Rows(rows))
  {
    hide Groups, CorrectsCorrection, Fault, Indexes;
    corrections, nested := map[], false;
    NoGroups();
    for i := 0 to |rows|
      invariant Groups(rows[..i], corrections)
      invariant nested <==> NestedBefore(rows, i)
    {
      var row := rows[i];
      assert rows[..i + 1] == rows[..i] + [row];
      if row.statement.Corrects? {
        var target := row.statement.target;
        TargetIsNested(rows, assertions, row);
        FirstSight(rows, i);
        GroupsExtend(rows[..i], corrections, row);
        corrections := corrections[target := (if target in corrections then corrections[target] else []) + [row]];
        nested := nested || assertions[target].statement.Corrects?;
      } else {
        GroupsSkip(rows[..i], corrections, row);
        AssertsNothingNested(rows, row);
      }
    }
    assert rows[..|rows|] == rows;
    AllNested(rows);
  }

  ghost predicate NestedBefore(rows: seq<Assertion>, i: nat)
    requires i <= |rows|
  {
    exists j :: 0 <= j < i && CorrectsCorrection(Rows(rows), rows[j])
  }

  lemma AllNested(rows: seq<Assertion>)
    ensures NestedBefore(rows, |rows|) <==> NestedCorrection(Rows(rows))
  {
    hide CorrectsCorrection;
    if NestedCorrection(Rows(rows)) {
      var c :| c in Rows(rows) && CorrectsCorrection(Rows(rows), c);
      assert c in rows;
    }
  }

  lemma NoGroups()
    ensures Groups([], map[])
  {}

  lemma FirstSight(rows: seq<Assertion>, i: nat)
    requires DistinctIds(rows) && i < |rows|
    ensures rows[i] !in rows[..i]
  {}

  lemma AssertsNothingNested(rows: seq<Assertion>, row: Assertion)
    requires !row.statement.Corrects?
    ensures !CorrectsCorrection(Rows(rows), row)
  {}

  lemma GroupsSkip(rows: seq<Assertion>, corrections: map<string, seq<Assertion>>, row: Assertion)
    requires Groups(rows, corrections) && !row.statement.Corrects?
    ensures Groups(rows + [row], corrections)
  {}

  lemma TargetIsNested(rows: seq<Assertion>, assertions: map<string, Assertion>, row: Assertion)
    requires row in rows && row.statement.Corrects? && Fault(Rows(rows), row) == None
    requires Indexes(assertions, rows)
    ensures row.statement.target in assertions
    ensures assertions[row.statement.target].statement.Corrects? <==> CorrectsCorrection(Rows(rows), row)
  {
    var t :| t in Rows(rows) && t.id == row.statement.target;
    assert t in rows;
  }

  /** Every target in the map lists exactly the assertions that correct it, once each. */
  ghost predicate Groups(rows: seq<Assertion>, corrections: map<string, seq<Assertion>>) {
    && (forall row :: row in rows && row.statement.Corrects? ==>
          row.statement.target in corrections && row in corrections[row.statement.target])
    && (forall id :: id in corrections ==> corrections[id] != [] && Distinct(corrections[id]))
    && (forall id, row :: id in corrections && row in corrections[id] ==> row in rows && row.statement.Corrects? && row.statement.target == id)
  }

  lemma GroupsExtend(rows: seq<Assertion>, corrections: map<string, seq<Assertion>>, row: Assertion)
    requires Groups(rows, corrections) && row !in rows && row.statement.Corrects?
    ensures Groups(rows + [row], corrections[row.statement.target :=
              (if row.statement.target in corrections then corrections[row.statement.target] else []) + [row]])
  {}

  lemma ManyMeansRepeated(rows: seq<Assertion>, corrections: map<string, seq<Assertion>>)
    requires Groups(rows, corrections)
    ensures (exists id :: id in corrections && |corrections[id]| > 1) <==> RepeatedCorrection(Rows(rows))
  {
    if id :| id in corrections && |corrections[id]| > 1 {
      var a, b := corrections[id][0], corrections[id][1];
      assert a in corrections[id] && b in corrections[id];
      assert a in Rows(rows) && b in Rows(rows);
    }
    if RepeatedCorrection(Rows(rows)) {
      var a, b :| a in Rows(rows) && b in Rows(rows) && a != b && a.statement.Corrects? && b.statement.Corrects?
                  && a.statement.target == b.statement.target;
      assert a in rows && b in rows;
      var id := a.statement.target;
      assert a in corrections[id] && b in corrections[id];
      assert |corrections[id]| > 1;
    }
  }

  /** Every group has a first member, and that is a correction. */
  ghost predicate HoldCorrections(corrections: map<string, seq<Assertion>>) {
    forall id :: id in corrections ==> corrections[id] != [] && corrections[id][0].statement.Corrects?
  }

  lemma GroupsHold(rows: seq<Assertion>, corrections: map<string, seq<Assertion>>)
    requires Groups(rows, corrections)
    ensures HoldCorrections(corrections)
  {
    forall id | id in corrections ensures corrections[id] != [] && corrections[id][0].statement.Corrects? {
      assert corrections[id][0] in corrections[id];
    }
  }

  /** The claim a row contributes once corrections are applied. */
  function Current(corrections: map<string, seq<Assertion>>, row: Assertion): Option<Claim>
    requires HoldCorrections(corrections)
  {
    if row.statement.Corrects? then None
    else if row.id in corrections then corrections[row.id][0].statement.replacement
    else Some(row.statement.claim)
  }

  ghost function ActiveSoFar(rows: seq<Assertion>, corrections: map<string, seq<Assertion>>, economic: int): iset<Claim>
    requires HoldCorrections(corrections)
  {
    iset claim: Claim | InForce(claim.scope, economic) && exists row :: row in rows && Current(corrections, row) == Some(claim)
  }

  lemma ActiveExtend(rows: seq<Assertion>, row: Assertion, corrections: map<string, seq<Assertion>>, economic: int)
    requires HoldCorrections(corrections)
    ensures var claim := Current(corrections, row);
            ActiveSoFar(rows + [row], corrections, economic) == ActiveSoFar(rows, corrections, economic)
              + (if claim.Some? && InForce(claim.value.scope, economic) then iset{claim.value} else iset{})
  {
    assert row in rows + [row];
    assert forall r :: r in rows + [row] <==> r in rows || r == row;
  }

  lemma CurrentStands(rows: seq<Assertion>, corrections: map<string, seq<Assertion>>, row: Assertion, claim: Claim)
    requires Groups(rows, corrections) && row in rows
    requires HoldCorrections(corrections)
    requires Current(corrections, row) == Some(claim)
    ensures Stands(Rows(rows), claim)
  {
    assert row in Rows(rows);
    if row.id in corrections {
      var c := corrections[row.id][0];
      assert c in corrections[row.id];
      assert c in Rows(rows) && IsCorrectionOf(c, row);
    } else {
      assert forall c :: c in Rows(rows) ==> !IsCorrectionOf(c, row);
    }
  }

  lemma StandingIsCurrent(rows: seq<Assertion>, corrections: map<string, seq<Assertion>>, claim: Claim) returns (row: Assertion)
    requires Groups(rows, corrections) && !RepeatedCorrection(Rows(rows)) && Stands(Rows(rows), claim)
    requires HoldCorrections(corrections)
    ensures row in rows && Current(corrections, row) == Some(claim)
  {
    assert forall id :: id in corrections ==> corrections[id][0] in corrections[id] && corrections[id][0] in Rows(rows);
    if r :| r in Rows(rows) && r.statement == Asserts(claim) && !exists c :: c in Rows(rows) && IsCorrectionOf(c, r) {
      row := r;
    } else {
      var c, r :| c in Rows(rows) && r in Rows(rows) && r.statement.Asserts? && IsCorrectionOf(c, r)
                  && c.statement.replacement == Some(claim);
      row := r;
      assert c in rows && c in corrections[r.id];
      var first := corrections[r.id][0];
      assert first in corrections[r.id];
      assert first in Rows(rows) && first == c;
    }
  }

  lemma CurrentIsStanding(rows: seq<Assertion>, corrections: map<string, seq<Assertion>>, economic: int)
    requires Groups(rows, corrections) && !RepeatedCorrection(Rows(rows))
    requires HoldCorrections(corrections)
    ensures ActiveSoFar(rows, corrections, economic) == ActiveClaims(Rows(rows), economic)
  {
    forall claim ensures claim in ActiveSoFar(rows, corrections, economic) <==> claim in ActiveClaims(Rows(rows), economic) {
      if claim in ActiveSoFar(rows, corrections, economic) {
        var row :| row in rows && Current(corrections, row) == Some(claim);
        CurrentStands(rows, corrections, row, claim);
      }
      if claim in ActiveClaims(Rows(rows), economic) {
        var row := StandingIsCurrent(rows, corrections, claim);
      }
    }
  }

  /** Resolution as the source performs it: gather, check for conflicts, select. */
  method Resolve(rows: seq<Assertion>, effectiveAt: map<Revision, int>, coverage: Coverage, economic: int, boundary: int)
    returns (outcome: Resolution)
    requires Validated(rows, effectiveAt)
    ensures Resolves(Rows(rows), effectiveAt, coverage, economic, boundary, outcome)
  {
    if coverage.Limited? { return Unresolved([CoverageLimited]); }
    if coverage.UnknownCoverage? { return Unresolved([CoverageUnknown]); }
    if coverage.informationCutoff < boundary { return Unresolved([CutoffBeforeKnowledgeBoundary]); }
    var assertions := IndexById(rows);
    var corrections, nested := GroupCorrections(rows, assertions);
    ManyMeansRepeated(rows, corrections);
    var reasons := When(nested, CorrectionOfCorrection)
                 + When(exists id :: id in corrections && |corrections[id]| > 1, MultipleCorrections);
    if reasons != [] { return Unresolved(reasons); }
    var sides := CollectSides(rows, effectiveAt, corrections, economic);
    outcome := Select(sides, effectiveAt, economic);
  }

  method CollectSides(rows: seq<Assertion>, effectiveAt: map<Revision, int>, corrections: map<string, seq<Assertion>>, economic: int)
    returns (sides: Sides)
    requires Validated(rows, effectiveAt) && Groups(rows, corrections) && !RepeatedCorrection(Rows(rows))
    ensures Describes(ActiveClaims(Rows(rows), economic), sides)
    ensures sides.positive <= effectiveAt.Keys
  {
    hide Describes, ActiveSoFar, Groups, HoldCorrections, Validated, Current, Include, RepeatedCorrection, ActiveClaims, References;
    GroupsHold(rows, corrections);
    sides := Sides({}, {}, {}, {});
    ghost var active := iset{};
    assert rows[..0] == [];
    NothingActive(corrections, economic);
    for i := 0 to |rows|
      invariant active == ActiveSoFar(rows[..i], corrections, economic) && Describes(active, sides)
      invariant sides.positive <= effectiveAt.Keys
    {
      var claim := Current(corrections, rows[i]);
      ActiveExtend(rows[..i], rows[i], corrections, economic);
      assert rows[..i + 1] == rows[..i] + [rows[i]];
      if claim == None || !InForce(claim.value.scope, economic) { continue; }
      IncludeDescribes(active, sides, claim.value);
      CurrentIsKnown(rows, effectiveAt, corrections, rows[i]);
      IncludedPositive(sides, claim.value);
      sides, active := Include(sides, claim.value), active + iset{claim.value};
    }
    assert rows[..|rows|] == rows;
    CurrentIsStanding(rows, corrections, economic);
  }

  lemma NothingActive(corrections: map<string, seq<Assertion>>, economic: int)
    requires HoldCorrections(corrections)
    ensures ActiveSoFar([], corrections, economic) == iset{}
    ensures Describes(iset{}, Sides({}, {}, {}, {}))
  {
    assert Targets<Revision>({}) == {} && Sources<Revision>({}) == {};
  }

  lemma IncludedPositive(sides: Sides, claim: Claim)
    ensures Include(sides, claim).positive <= sides.positive + References(claim)
  {}

  lemma CurrentIsKnown(rows: seq<Assertion>, effectiveAt: map<Revision, int>, corrections: map<string, seq<Assertion>>, row: Assertion)
    requires Validated(rows, effectiveAt) && Groups(rows, corrections) && row in rows
    requires HoldCorrections(corrections)
    ensures Current(corrections, row).Some? ==> References(Current(corrections, row).value) <= effectiveAt.Keys
  {
    if Current(corrections, row).Some? {
      var claim := Current(corrections, row).value;
      if row.id in corrections {
        assert corrections[row.id][0] in corrections[row.id];
        assert Mentions(corrections[row.id][0], claim);
      } else {
        assert Mentions(row, claim);
      }
    }
  }

  method Select(sides: Sides, effectiveAt: map<Revision, int>, economic: int) returns (outcome: Resolution)
    ensures outcome == Decide(sides, effectiveAt, economic)
  {
    var cyclic := HasCycle(sides.edges);
    var reasons := When(cyclic, ActiveSupersessionCycle)
                 + When(sides.positive * sides.withdrawn != {}, WithdrawalConflict)
                 + When(StartsLater(sides, effectiveAt, economic), EffectiveStartConflict);
    if reasons != [] { return Unresolved(reasons); }
    var candidates := sides.positive - sides.displaced;
    OneOrMany(candidates);
    if |candidates| > 1 { return Unresolved([MultipleApplicableCandidates]); }
    if candidates != {} {
      var r :| r in candidates;
      return UniqueApplicable(r);
    }
    outcome := NoApplicable;
  }

  ghost predicate Conclusive(rows: set<Assertion>, coverage: Coverage, boundary: int) {
    && coverage.CompleteThrough? && boundary <= coverage.informationCutoff
    && !NestedCorrection(rows) && !RepeatedCorrection(rows)
  }

  /** On conclusive evidence, no revision is reported applicable exactly when
      every active claim is a withdrawal. */
  lemma NoneMeaning(rows: set<Assertion>, effectiveAt: map<Revision, int>, coverage: Coverage,
                    economic: int, boundary: int, outcome: Resolution)
    requires Resolves(rows, effectiveAt, coverage, economic, boundary, outcome) && Conclusive(rows, coverage, boundary)
    ensures outcome == NoApplicable <==> forall claim :: Active(rows, economic, claim) ==> claim.Withdraws?
  {
    var active := ActiveClaims(rows, economic);
    var sides :| Describes(active, sides) && sides.positive <= effectiveAt.Keys && outcome == Decide(sides, effectiveAt, economic);
    NoneExactlyWhen(sides, effectiveAt, economic);
    forall claim | claim in active ensures claim.Withdraws? || Subject(claim) in sides.positive {
      if !claim.Withdraws? { ActiveIsPositive(active, sides, claim); }
    }
    if r :| r in sides.positive {
      PositiveIsActive(active, sides, r);
      var claim :| claim in active && Supports(claim, r);
      assert Active(rows, economic, claim);
    }
  }

  /** On conclusive evidence, a unique revision is supported by an active claim,
      opposed by none, and already effective. */
  lemma UniqueMeaning(rows: set<Assertion>, effectiveAt: map<Revision, int>, coverage: Coverage,
                      economic: int, boundary: int, r: Revision)
    requires Resolves(rows, effectiveAt, coverage, economic, boundary, UniqueApplicable(r)) && Conclusive(rows, coverage, boundary)
    ensures exists claim :: Active(rows, economic, claim) && Supports(claim, r)
    ensures forall claim :: Active(rows, economic, claim) ==> !Opposes(claim, r)
    ensures r in effectiveAt && effectiveAt[r] <= economic
  {
    var active := ActiveClaims(rows, economic);
    var sides :| Describes(active, sides) && sides.positive <= effectiveAt.Keys && UniqueApplicable(r) == Decide(sides, effectiveAt, economic);
    UniqueExactlyWhen(sides, effectiveAt, economic, r);
    PositiveIsActive(active, sides, r);
    var claim :| claim in active && Supports(claim, r);
    assert Active(rows, economic, claim);
    UniqueIsUnopposed(active, sides, effectiveAt, economic, r);
  }

  /** Edges that come from active supersession claims. */
  ghost predicate FromActiveClaims(rows: set<Assertion>, economic: int, edges: Edges<Revision>) {
    forall a, b :: (a, b) in edges ==> exists s :: Active(rows, economic, Supersedes(a, b, s))
  }

  ghost predicate OvertakesAll(rows: set<Assertion>, economic: int, edges: Edges<Revision>, r: Revision) {
    forall claim :: Active(rows, economic, claim) && !claim.Withdraws? ==> Reaches(edges, Subject(claim), r)
  }

  /** ... and every other revision an active claim supports has been superseded
      by it through a chain of active claims. */
  lemma UniqueOvertakes(rows: set<Assertion>, effectiveAt: map<Revision, int>, coverage: Coverage,
                        economic: int, boundary: int, r: Revision) returns (edges: Edges<Revision>)
    requires Resolves(rows, effectiveAt, coverage, economic, boundary, UniqueApplicable(r)) && Conclusive(rows, coverage, boundary)
    ensures FromActiveClaims(rows, economic, edges) && OvertakesAll(rows, economic, edges, r)
  {
    var active := ActiveClaims(rows, economic);
    var sides :| Describes(active, sides) && sides.positive <= effectiveAt.Keys && UniqueApplicable(r) == Decide(sides, effectiveAt, economic);
    UniqueExactlyWhen(sides, effectiveAt, economic, r);
    edges := sides.edges;
    forall a, b | (a, b) in edges ensures exists s :: Active(rows, economic, Supersedes(a, b, s)) {
      var s :| Supersedes(a, b, s) in active;
      assert Active(rows, economic, Supersedes(a, b, s));
    }
    forall claim | Active(rows, economic, claim) && !claim.Withdraws? ensures Reaches(edges, Subject(claim), r) {
      assert claim in active;
      ActiveIsPositive(active, sides, claim);
    }
  }

  function Subject(claim: Claim): Revision { if claim.Supersedes? then claim.successor else claim.revision }

  ghost predicate Supports(claim: Claim, r: Revision) { !claim.Withdraws? && Subject(claim) == r }

  ghost predicate Opposes(claim: Claim, r: Revision) {
    (claim.Withdraws? && claim.revision == r) || (claim.Supersedes? && claim.predecessor == r)
  }

  lemma ActiveIsPositive(active: iset<Claim>, sides: Sides, claim: Claim)
    requires Describes(active, sides) && claim in active && !claim.Withdraws?
    ensures Subject(claim) in sides.positive
  {
    if claim.Supersedes? {
      assert Supersedes(claim.predecessor, claim.successor, claim.scope) in active;
      assert (claim.predecessor, claim.successor) in sides.edges;
    } else {
      assert Applies(claim.revision, claim.scope) in active;
    }
  }

  lemma PositiveIsActive(active: iset<Claim>, sides: Sides, r: Revision)
    requires Describes(active, sides) && r in sides.positive
    ensures exists claim :: claim in active && Supports(claim, r)
  {
    if r in Targets(sides.edges) {
      var e :| e in sides.edges && e.1 == r;
      assert e == (e.0, r);
      var s :| Supersedes(e.0, r, s) in active;
      assert Supports(Supersedes(e.0, r, s), r);
    } else {
      var s :| Applies(r, s) in active;
      assert Supports(Applies(r, s), r);
    }
  }

  lemma OpposedIsExcluded(active: iset<Claim>, sides: Sides, claim: Claim, r: Revision)
    requires Describes(active, sides) && claim in active && Opposes(claim, r)
    ensures r in sides.withdrawn || r in sides.displaced
  {
    if claim.Withdraws? {
      assert Withdraws(r, claim.scope) in active;
    } else {
      assert Supersedes(r, claim.successor, claim.scope) in active;
      assert (r, claim.successor) in sides.edges;
    }
  }

  lemma UniqueIsUnopposed(active: iset<Claim>, sides: Sides, effectiveAt: map<Revision, int>, economic: int, r: Revision)
    requires Describes(active, sides) && Decide(sides, effectiveAt, economic) == UniqueApplicable(r)
    ensures forall claim :: claim in active ==> !Opposes(claim, r)
  {
    assert r in sides.positive - sides.displaced by { assert r in {r}; }
    assert r !in sides.positive * sides.withdrawn;
    forall claim | claim in active ensures !Opposes(claim, r) {
      if Opposes(claim, r) { OpposedIsExcluded(active, sides, claim, r); }
    }
  }

  // ------------------------------------------------------------ the same in the fields of the claims

  /** A standing claim whose scope contains the time: from its start on, and before its end if it has one. */
  ghost predicate StandsAt(rows: set<Assertion>, economic: int, claim: Claim) {
    Stands(rows, claim) && claim.scope.effectiveFrom <= economic
    && match claim.scope.effectiveUntil
       case None => true
       case Some(until) => economic < until
  }

  /** Something standing at the time makes the revision apply: directly, or as a successor. */
  ghost predicate AppliesAt(rows: set<Assertion>, economic: int, r: Revision) {
    || (exists s :: StandsAt(rows, economic, Applies(r, s)))
    || exists p, s :: StandsAt(rows, economic, Supersedes(p, r, s))
  }

  ghost predicate WithdrawnAt(rows: set<Assertion>, economic: int, r: Revision) {
    exists s :: StandsAt(rows, economic, Withdraws(r, s))
  }

  ghost predicate SupersededAt(rows: set<Assertion>, economic: int, r: Revision) {
    exists t, s :: StandsAt(rows, economic, Supersedes(r, t, s))
  }

  lemma DescribedAt(rows: set<Assertion>, economic: int, sides: Sides, r: Revision)
    requires Describes(ActiveClaims(rows, economic), sides)
    ensures r in sides.positive <==> AppliesAt(rows, economic, r)
    ensures r in sides.withdrawn <==> WithdrawnAt(rows, economic, r)
    ensures r in sides.displaced <==> SupersededAt(rows, economic, r)
  {
    var active := ActiveClaims(rows, economic);
    forall claim ensures claim in active <==> StandsAt(rows, economic, claim) {}
    if r in sides.positive { PositiveAt(active, rows, economic, sides, r); }
    if AppliesAt(rows, economic, r) { AppliesIsPositive(active, rows, economic, sides, r); }
    if r in sides.displaced {
      var e :| e in sides.edges && e.0 == r;
      assert e == (r, e.1);
      var s :| Supersedes(r, e.1, s) in active;
      assert StandsAt(rows, economic, Supersedes(r, e.1, s));
    }
    if t, s :| StandsAt(rows, economic, Supersedes(r, t, s)) { assert (r, t) in sides.edges; }
  }

  lemma PositiveAt(active: iset<Claim>, rows: set<Assertion>, economic: int, sides: Sides, r: Revision)
    requires Describes(active, sides) && r in sides.positive && forall claim :: claim in active <==> StandsAt(rows, economic, claim)
    ensures AppliesAt(rows, economic, r)
  {
    if r in Targets(sides.edges) {
      var e :| e in sides.edges && e.1 == r;
      assert e == (e.0, r);
      var s :| Supersedes(e.0, r, s) in active;
      assert StandsAt(rows, economic, Supersedes(e.0, r, s));
    } else {
      var s :| Applies(r, s) in active;
      assert StandsAt(rows, economic, Applies(r, s));
    }
  }

  lemma AppliesIsPositive(active: iset<Claim>, rows: set<Assertion>, economic: int, sides: Sides, r: Revision)
    requires Describes(active, sides) && AppliesAt(rows, economic, r) && forall claim :: claim in active <==> StandsAt(rows, economic, claim)
    ensures r in sides.positive
  {
    if p, s :| StandsAt(rows, economic, Supersedes(p, r, s)) {
      assert Supersedes(p, r, s) in active;
      assert (p, r) in sides.edges;
    } else {
      var s :| StandsAt(rows, economic, Applies(r, s));
      assert Applies(r, s) in active;
    }
  }

  /** On conclusive evidence a unique revision applies, and is neither superseded nor withdrawn, by
      claims whose scopes contain the time. */
  lemma UniqueAt(rows: set<Assertion>, effectiveAt: map<Revision, int>, coverage: Coverage, economic: int, boundary: int, r: Revision)
    requires Resolves(rows, effectiveAt, coverage, economic, boundary, UniqueApplicable(r)) && Conclusive(rows, coverage, boundary)
    ensures exists claim ::
      && Stands(rows, claim) && (claim == Applies(r, claim.scope) || (claim.Supersedes? && claim.successor == r))
      && claim.scope.effectiveFrom <= economic
      && (claim.scope.effectiveUntil == None || economic < claim.scope.effectiveUntil.value)
    ensures AppliesAt(rows, economic, r) && !SupersededAt(rows, economic, r) && !WithdrawnAt(rows, economic, r)
    ensures r in effectiveAt && effectiveAt[r] <= economic
  {
    hide Describes, AppliesAt, WithdrawnAt, SupersededAt;
    UniqueMeaning(rows, effectiveAt, coverage, economic, boundary, r);
    var sides := SidesOf(rows, effectiveAt, coverage, economic, boundary, UniqueApplicable(r));
    UniqueIsSink(sides, effectiveAt, economic, r);
    DescribedAt(rows, economic, sides, r);
    var claim := AppliesBy(rows, economic, r);
  }

  lemma SidesOf(rows: set<Assertion>, effectiveAt: map<Revision, int>, coverage: Coverage, economic: int, boundary: int, outcome: Resolution)
    returns (sides: Sides)
    requires Resolves(rows, effectiveAt, coverage, economic, boundary, outcome) && Conclusive(rows, coverage, boundary)
    ensures Describes(ActiveClaims(rows, economic), sides) && sides.positive <= effectiveAt.Keys
    ensures outcome == Decide(sides, effectiveAt, economic)
  {
    sides :| Describes(ActiveClaims(rows, economic), sides) && sides.positive <= effectiveAt.Keys && outcome == Decide(sides, effectiveAt, economic);
  }

  lemma UniqueIsSink(sides: Sides, effectiveAt: map<Revision, int>, economic: int, r: Revision)
    requires Decide(sides, effectiveAt, economic) == UniqueApplicable(r)
    ensures r in sides.positive && r !in sides.displaced && r !in sides.withdrawn
  {
    assert r in {r};
    assert r !in sides.positive * sides.withdrawn;
  }

  lemma AppliesBy(rows: set<Assertion>, economic: int, r: Revision) returns (claim: Claim)
    requires AppliesAt(rows, economic, r)
    ensures StandsAt(rows, economic, claim) && (claim == Applies(r, claim.scope) || (claim.Supersedes? && claim.successor == r))
  {
    if s :| StandsAt(rows, economic, Applies(r, s)) {
      claim := Applies(r, s);
    } else {
      var p, s :| StandsAt(rows, economic, Supersedes(p, r, s));
      claim := Supersedes(p, r, s);
    }
  }

  /** On conclusive evidence none applies exactly when every standing claim whose scope contains the
      time is a withdrawal. */
  lemma NoneAt(rows: set<Assertion>, effectiveAt: map<Revision, int>, coverage: Coverage, economic: int, boundary: int, outcome: Resolution)
    requires Resolves(rows, effectiveAt, coverage, economic, boundary, outcome) && Conclusive(rows, coverage, boundary)
    ensures outcome == NoApplicable <==>
      forall claim ::
        (Stands(rows, claim) && claim.scope.effectiveFrom <= economic
         && (claim.scope.effectiveUntil == None || economic < claim.scope.effectiveUntil.value)) ==> claim.Withdraws?
  {
    hide Resolves, Conclusive, Stands;
    NoneMeaning(rows, effectiveAt, coverage, economic, boundary, outcome);
    forall claim ensures Active(rows, economic, claim) <==> StandsAt(rows, economic, claim) {}
  }

  ghost predicate Gives(outcome: Resolution, reason: Reason) { outcome.Unresolved? && reason in outcome.reasons }

  /** On conclusive evidence the conflicts are reported exactly when they are there. */
  lemma ConflictsAt(rows: set<Assertion>, effectiveAt: map<Revision, int>, coverage: Coverage, economic: int, boundary: int, outcome: Resolution)
    requires Resolves(rows, effectiveAt, coverage, economic, boundary, outcome) && Conclusive(rows, coverage, boundary)
    ensures Gives(outcome, WithdrawalConflict) <==> exists r :: AppliesAt(rows, economic, r) && WithdrawnAt(rows, economic, r)
    ensures Gives(outcome, EffectiveStartConflict) <==> exists r :: AppliesAt(rows, economic, r) && r in effectiveAt && effectiveAt[r] > economic
  {
    hide Resolves, Describes, AppliesAt, WithdrawnAt, SupersededAt, Conclusive;
    var sides := SidesOf(rows, effectiveAt, coverage, economic, boundary, outcome);
    forall r ensures (r in sides.positive <==> AppliesAt(rows, economic, r)) && (r in sides.withdrawn <==> WithdrawnAt(rows, economic, r)) {
      DescribedAt(rows, economic, sides, r);
    }
    ReasonsOf(sides, effectiveAt, economic);
  }

  lemma ReasonsOf(sides: Sides, effectiveAt: map<Revision, int>, economic: int)
    ensures var o := Decide(sides, effectiveAt, economic);
      && (Gives(o, ActiveSupersessionCycle) <==> Cyclic(sides.edges))
      && (Gives(o, WithdrawalConflict) <==> exists r :: r in sides.positive && r in sides.withdrawn)
      && (Gives(o, EffectiveStartConflict) <==> exists r :: r in sides.positive && r in effectiveAt && effectiveAt[r] > economic)
  {
    hide Cyclic;
    assert sides.positive * sides.withdrawn != {} <==> exists r :: r in sides.positive && r in sides.withdrawn by {
      if r :| r in sides.positive && r in sides.withdrawn { assert r in sides.positive * sides.withdrawn; }
      if sides.positive * sides.withdrawn != {} { var r :| r in sides.positive * sides.withdrawn; }
    }
  }
}

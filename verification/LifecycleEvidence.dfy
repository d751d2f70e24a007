/** Lifecycle assertions of one source about instrument-specification revisions,
    and the structural check of the corrections among them: every correction
    names another assertion that it does not precede, and following targets
    never returns to the same assertion. */
module LifecycleEvidence {
  import opened Wrappers
  import opened Digraph

  datatype Revision = Revision(sourceId: string, sourceContract: string,
                               sourceContractVersion: string, sourceSnapshotId: string)

  datatype Scope = Scope(effectiveFrom: int, effectiveUntil: Option<int>)

  datatype Claim =
    | Applies(revision: Revision, scope: Scope)
    | Supersedes(predecessor: Revision, successor: Revision, scope: Scope)
    | Withdraws(revision: Revision, scope: Scope)

  datatype Statement =
    | Asserts(claim: Claim)
    | Corrects(target: string, replacement: Option<Claim>)

  datatype Timing = Timing(observedAt: int, sourceAvailableAt: Option<int>)

  datatype Assertion = Assertion(id: string, timing: Timing, statement: Statement)

  datatype CorrectionError = NotAnotherAssertion | PrecedesObservation | PrecedesPublication | CyclicCorrections

  ghost predicate DistinctIds(assertions: seq<Assertion>) {
    forall i, j :: 0 <= i < j < |assertions| ==> assertions[i].id != assertions[j].id
  }

  /** What is wrong with a correction on its own, given the assertion it names. */
  ghost function Fault(assertions: set<Assertion>, row: Assertion): Option<CorrectionError>
  {
    if row.statement.Asserts? then None
    else if row.statement.target == row.id || !exists t :: t in assertions && t.id == row.statement.target then
      Some(NotAnotherAssertion)
    else if exists t :: t in assertions && t.id == row.statement.target && t.timing.observedAt > row.timing.observedAt then
      Some(PrecedesObservation)
    else if exists t :: t in assertions && t.id == row.statement.target && PublishedAfter(t.timing, row.timing) then
      Some(PrecedesPublication)
    else None
  }

  predicate PublishedAfter(target: Timing, correction: Timing) {
    && target.sourceAvailableAt.Some? && correction.sourceAvailableAt.Some?
    && target.sourceAvailableAt.value > correction.sourceAvailableAt.value
  }

  /** Correction to corrected assertion, by identifier. */
  ghost function CorrectionEdges(assertions: set<Assertion>): Edges<string> {
    set row | row in assertions && row.statement.Corrects? :: (row.id, row.statement.target)
  }

  ghost function Rows(assertions: seq<Assertion>): set<Assertion> { set row | row in assertions }

  method CheckCorrections(assertions: seq<Assertion>) returns (error: Option<CorrectionError>)
    requires DistinctIds(assertions)
    ensures error == None <==>
      (forall row :: row in assertions ==> Fault(Rows(assertions), row) == None) && !Cyclic(CorrectionEdges(Rows(assertions)))
    ensures error == Some(CyclicCorrections) <==>
      (forall row :: row in assertions ==> Fault(Rows(assertions), row) == None) && Cyclic(CorrectionEdges(Rows(assertions)))
    ensures error.Some? && error != Some(CyclicCorrections) ==>
      exists i :: 0 <= i < |assertions| && error == Fault(Rows(assertions), assertions[i])
                  && forall j :: 0 <= j < i ==> Fault(Rows(assertions), assertions[j]) == None
  {
    var fault, targets, order := CollectTargets(assertions);
    if fault.Some? { return fault; }
    var cyclic := CorrectionsCycle(targets, order, CorrectionEdges(Rows(assertions)));
    error := if cyclic then Some(CyclicCorrections) else None;
  }

  lemma NothingCorrected()
    ensures Functional(map[], CorrectionEdges(Rows([])))
  {}

  lemma MoreEdges(assertions: seq<Assertion>, i: nat)
    requires i < |assertions|
    ensures CorrectionEdges(Rows(assertions[..i + 1])) ==
      if assertions[i].statement.Asserts? then CorrectionEdges(Rows(assertions[..i]))
      else CorrectionEdges(Rows(assertions[..i])) + {(assertions[i].id, assertions[i].statement.target)}
  {
    assert Rows(assertions[..i + 1]) == Rows(assertions[..i]) + {assertions[i]};
  }

  lemma FreshTarget(assertions: seq<Assertion>, i: nat, targets: map<string, string>, target: string)
    requires DistinctIds(assertions) && i < |assertions|
    requires Functional(targets, CorrectionEdges(Rows(assertions[..i])))
    ensures Functional(targets[assertions[i].id := target], CorrectionEdges(Rows(assertions[..i])) + {(assertions[i].id, target)})
  {
    assert forall b :: (assertions[i].id, b) !in CorrectionEdges(Rows(assertions[..i]));
  }

  /** The fault of a row, read off the index. */
  lemma FaultIs(assertions: seq<Assertion>, byId: map<string, Assertion>, row: Assertion)
    requires Indexes(byId, assertions) && row in assertions
    ensures Fault(Rows(assertions), row) ==
      if row.statement.Asserts? then None
      else if row.statement.target !in byId || row.statement.target == row.id then Some(NotAnotherAssertion)
      else if byId[row.statement.target].timing.observedAt > row.timing.observedAt then Some(PrecedesObservation)
      else if PublishedAfter(byId[row.statement.target].timing, row.timing) then Some(PrecedesPublication)
      else None
  {
    if row.statement.Corrects? && row.statement.target in byId {
      var t := byId[row.statement.target];
      assert t in Rows(assertions);
      assert forall u :: u in Rows(assertions) && u.id == row.statement.target ==> u == t;
    }
  }

  /** A correction is without fault exactly when it corrects another assertion, and neither its
      observation nor, as far as both are known, its publication came before that one's. */
  lemma FaultlessExactlyWhen(assertions: seq<Assertion>, row: Assertion)
    requires DistinctIds(assertions) && row in assertions && row.statement.Corrects?
    ensures Fault(Rows(assertions), row) == None <==>
      exists t :: t in assertions && t.id == row.statement.target && t.id != row.id
        && t.timing.observedAt <= row.timing.observedAt
        && match (t.timing.sourceAvailableAt, row.timing.sourceAvailableAt)
           case (Some(earlier), Some(later)) => earlier <= later
           case _ => true
  {
    forall t, u | t in assertions && u in assertions && t.id == u.id ensures t == u {
      var i :| 0 <= i < |assertions| && assertions[i] == t;
      var j :| 0 <= j < |assertions| && assertions[j] == u;
    }
    forall t ensures t in Rows(assertions) <==> t in assertions {}
  }

  /** First pass: the target of every correction, or the first faulty row's error. */
  method CollectTargets(assertions: seq<Assertion>)
    returns (fault: Option<CorrectionError>, targets: map<string, string>, order: seq<string>)
    requires DistinctIds(assertions)
    ensures fault != Some(CyclicCorrections)
    ensures fault == None ==>
      && (forall row :: row in assertions ==> Fault(Rows(assertions), row) == None)
      && Functional(targets, CorrectionEdges(Rows(assertions)))
      && forall a :: a in targets <==> a in order
    ensures fault.Some? ==>
      exists i :: 0 <= i < |assertions| && fault == Fault(Rows(assertions), assertions[i])
                  && forall j :: 0 <= j < i ==> Fault(Rows(assertions), assertions[j]) == None
  {
    hide Fault, Functional;
    var byId := IndexById(assertions);
    targets, order := map[], [];
    NothingCorrected();
    for i := 0 to |assertions|
      invariant forall j :: 0 <= j < i ==> Fault(Rows(assertions), assertions[j]) == None
      invariant Functional(targets, CorrectionEdges(Rows(assertions[..i])))
      invariant forall a :: a in targets <==> a in order
    {
      var row := assertions[i];
      MoreEdges(assertions, i);
      FaultIs(assertions, byId, row);
      if row.statement.Asserts? { continue; }
      var targetId := row.statement.target;
      if targetId !in byId || targetId == row.id { return Some(NotAnotherAssertion), targets, order; }
      var target := byId[targetId];
      if target.timing.observedAt > row.timing.observedAt { return Some(PrecedesObservation), targets, order; }
      var published, corrected := target.timing.sourceAvailableAt, row.timing.sourceAvailableAt;
      if published.Some? && corrected.Some? && published.value > corrected.value { return Some(PrecedesPublication), targets, order; }
      FreshTarget(assertions, i, targets, targetId);
      targets, order := targets[row.id := targetId], order + [row.id];
    }
    assert assertions[..|assertions|] == assertions;
    fault := None;
  }

  ghost predicate Indexes(byId: map<string, Assertion>, assertions: seq<Assertion>) {
    && (forall row :: row in assertions ==> row.id in byId && byId[row.id] == row)
    && forall id :: id in byId ==> byId[id] in assertions && byId[id].id == id
  }

  method IndexById(assertions: seq<Assertion>) returns (byId: map<string, Assertion>)
    requires DistinctIds(assertions)
    ensures Indexes(byId, assertions)
  {
    byId := map[];
    for i := 0 to |assertions|
      invariant forall j :: 0 <= j < i ==> assertions[j].id in byId && byId[assertions[j].id] == assertions[j]
      invariant forall id :: id in byId ==> byId[id] in assertions && byId[id].id == id
    {
      byId := byId[assertions[i].id := assertions[i]];
    }
  }

  /** The edges are the graph of the map. */
  ghost predicate Functional(targets: map<string, string>, edges: Edges<string>) {
    forall a, b :: (a, b) in edges <==> a in targets && targets[a] == b
  }

  ghost predicate OnCycle(edges: Edges<string>, c: seq<string>, a: string) { IsCycle(edges, c) && a in c }

  lemma CycleFollowsTarget(targets: map<string, string>, edges: Edges<string>, c: seq<string>, a: string)
    requires Functional(targets, edges) && OnCycle(edges, c, a)
    ensures a in targets && OnCycle(edges, c, targets[a])
  {
    var i :| 0 <= i < |c| && c[i] == a;
    var k := if i == |c| - 1 then 0 else i;
    assert (c[k], c[k + 1]) in edges;
  }

  /** Second pass: follow targets from every correction; walks end at an
      uncorrecting assertion, at one already completed, or at a repetition. */
  method CorrectionsCycle(targets: map<string, string>, order: seq<string>, ghost edges: Edges<string>) returns (cyclic: bool)
    requires Functional(targets, edges) && forall a :: a in targets <==> a in order
    ensures cyclic <==> Cyclic(edges)
  {
    var complete: set<string> := {};
    for i := 0 to |order|
      invariant forall c, a :: OnCycle(edges, c, a) ==> a !in complete
      invariant forall j :: 0 <= j < i ==> order[j] in complete
    {
      var visiting: set<string> := {};
      var current := order[i];
      ghost var walk := [current];
      while current in targets && current !in complete
        invariant IsWalk(edges, walk) && walk[|walk| - 1] == current
        invariant forall a :: a in visiting <==> a in walk[..|walk| - 1]
        invariant forall c, a :: OnCycle(edges, c, a) && a in visiting ==> OnCycle(edges, c, current)
        invariant visiting <= targets.Keys
        invariant order[i] in visiting || current == order[i]
        decreases targets.Keys - visiting
      {
        if current in visiting {
          ghost var k :| 0 <= k < |walk| - 1 && walk[k] == current;
          assert IsCycle(edges, walk[k..]);
          return true;
        }
        forall c, a | OnCycle(edges, c, a) && (a in visiting || a == current) ensures OnCycle(edges, c, targets[current]) {
          CycleFollowsTarget(targets, edges, c, current);
        }
        visiting := visiting + {current};
        current := targets[current];
        walk := walk + [current];
      }
      forall c, a | OnCycle(edges, c, a) ensures a !in visiting {
        if a in visiting { CycleFollowsTarget(targets, edges, c, current); }
      }
      complete := complete + visiting;
    }
    forall c ensures !IsCycle(edges, c) {
      if IsCycle(edges, c) {
        assert OnCycle(edges, c, c[0]);
        CycleFollowsTarget(targets, edges, c, c[0]);
      }
    }
    cyclic := false;
  }
}

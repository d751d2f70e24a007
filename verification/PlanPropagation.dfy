/** Spreading a failure from a completed step of a plan: it can raise, and then it has
    changed nothing. */
module PlanPropagation {
  import opened Wrappers
  import opened CodePoints
  import opened Digraph
  import opened Tasks
  import opened TaskGraph
  import opened FailurePropagation
  import opened TaskRuns
  import opened TaskSafety
  import opened TaskPlan
  import PreventionFlag

  // ------------------------------------------------------------ searching among finished tasks

  /** From inside, every dependent is inside and finished, or can be neither left nor stopped. */
  ghost predicate Walled(g: Graph, inside: set<Id>) {
    forall x, y :: x in inside && (x, y) in EdgesOf(g) ==> y in g.tasks && if Terminal(g.tasks[y].state) then y in inside else !CanStop(g.tasks[y])
  }

  ghost predicate Untouched(g: Graph, inside: set<Id>, s: Search) {
    s.graph == g && s.seen <= inside && forall q :: q in s.queue ==> q in inside
  }

  lemma VisitTargetWalled(g: Graph, inside: set<Id>, s: Search, source: Id, target: Id, why: Str, terminal: bool)
    requires Walled(g, inside) && Untouched(g, inside, s) && source in inside
    requires target in g.tasks ==> (source, target) in EdgesOf(g)
    ensures var v := VisitTarget(s, source, target, why, terminal);
      v.search.graph == g && (v.error == None ==> Untouched(g, inside, v.search))
  {
    hide EdgesOf, CanStop, Stopped, Terminal;
    if target in g.tasks && !Terminal(g.tasks[target].state) { NotStopped(g, target, why); }
  }

  lemma {:induction false} VisitTargetsWalled(g: Graph, inside: set<Id>, s: Search, source: Id, targets: seq<Id>, why: Str, terminal: bool)
    requires Walled(g, inside) && Untouched(g, inside, s) && source in inside
    requires forall t :: t in targets && t in g.tasks ==> (source, t) in EdgesOf(g)
    ensures var v := VisitTargets(s, source, targets, why, terminal);
      v.search.graph == g && (v.error == None ==> Untouched(g, inside, v.search))
    decreases |targets|
  {
    hide EdgesOf, Walled, Untouched, VisitTarget;
    if targets != [] {
      var v := VisitTarget(s, source, targets[0], why, terminal);
      VisitTargetWalled(g, inside, s, source, targets[0], why, terminal);
      if v.error == None { VisitTargetsWalled(g, inside, v.search, source, targets[1..], why, terminal); }
    } else {
      UntouchedGraph(g, inside, s);
    }
  }

  lemma UntouchedGraph(g: Graph, inside: set<Id>, s: Search)
    requires Untouched(g, inside, s)
    ensures s.graph == g
  {}

  lemma {:induction false} SpreadWalled(g: Graph, inside: set<Id>, s: Search, why: Str, terminal: bool)
    requires Walled(g, inside) && Untouched(g, inside, s)
    ensures Spread(s, why, terminal).search.graph == g
    decreases Unseen(s), |s.queue|
  {
    hide EdgesOf, Walled, VisitTargets, TargetsOf, Sorted;
    if s.queue != [] {
      var source, rest := s.queue[0], s.(queue := s.queue[1..]);
      var targets := Sorted(TargetsOf(g, source));
      forall t | t in targets && t in g.tasks ensures (source, t) in EdgesOf(g) { EdgeMeaning(g, source, t); }
      VisitTargetsShrinks(rest, source, targets, why, terminal);
      VisitTargetsWalled(g, inside, rest, source, targets, why, terminal);
      var v := VisitTargets(rest, source, targets, why, terminal);
      if v.error == None { SpreadWalled(g, inside, v.search, why, terminal); }
    }
  }

  // ------------------------------------------------------------ runs of a plan

  /** A link of the chain, in the plan's graph and in every later one. */
  lemma ChainEdge(g: Graph, request: Str, n: nat, x: Id, y: Id)
    requires IsChain(g, request, n) && (x, y) in EdgesOf(g)
    ensures exists k :: 1 < k <= n && x == TaskId(request, k - 1) && y == TaskId(request, k)
  {
    hide TaskId;
    if l :| l in g.links && l.source == x && l.target == y {
      assert IsStepLink(request, n, l);
    } else {
      assert y in g.tasks && x in g.tasks[y].dependencies && IsStepId(request, n, y);
      var k :| 0 < k <= n && y == TaskId(request, k);
      assert IsStepTask(g, request, k);
    }
  }

  lemma StepEdge(g: Graph, request: Str, n: nat, i: nat, y: Id)
    requires IsChain(g, request, n) && (TaskId(request, i), y) in EdgesOf(g)
    ensures 0 < i < n && y == TaskId(request, i + 1)
  {
    hide TaskId, EdgesOf, IsChain;
    ChainEdge(g, request, n, TaskId(request, i), y);
    var k :| 1 < k <= n && TaskId(request, i) == TaskId(request, k - 1) && y == TaskId(request, k);
    TaskIdInjective(request, i, k - 1);
  }

  /** Walks along the chain climb one step at a time. */
  lemma {:induction false} WalkClimbs(g: Graph, request: Str, n: nat, p: seq<Id>, i: nat)
    requires IsChain(g, request, n) && IsWalk(EdgesOf(g), p) && p[0] == TaskId(request, i)
    ensures p[|p| - 1] == TaskId(request, i + |p| - 1)
  {
    hide TaskId, EdgesOf, IsChain;
    if |p| > 1 {
      WalkClimbs(g, request, n, p[..|p| - 1], i);
      assert (p[|p| - 2], p[|p| - 1]) in EdgesOf(g);
      StepEdge(g, request, n, i + |p| - 2, p[|p| - 1]);
    }
  }

  /** Only a step before it has a step downstream. */
  lemma DownstreamStep(g: Graph, request: Str, n: nat, id: Id, r: nat) returns (i: nat)
    requires IsChain(g, request, n) && Downstream(g, id, TaskId(request, r))
    ensures 0 < i < r && id == TaskId(request, i)
  {
    hide TaskId, EdgesOf, IsChain;
    var p :| IsWalkBetween(EdgesOf(g), p, id, TaskId(request, r));
    assert (p[0], p[1]) in EdgesOf(g);
    ChainEdge(g, request, n, p[0], p[1]);
    var k :| 1 < k <= n && p[0] == TaskId(request, k - 1) && p[1] == TaskId(request, k);
    i := k - 1;
    WalkClimbs(g, request, n, p, i);
    TaskIdInjective(request, r, i + |p| - 1);
  }

  function Earlier(request: Str, r: nat): set<Id> { set k: nat | 0 < k < r :: TaskId(request, k) }

  /** Before a running step everything is completed, so the search passes it by and raises at the step. */
  lemma EarlierIsWalled(request: Str, approved: bool, steps: seq<Step>, ops: seq<Operation>, r: nat)
    requires 0 < r <= |steps|
    requires StateAt(request, approved, steps, ops, r) == Some(InProgress)
    ensures Walled(Run(FromPlan(request, approved, steps), ops), Earlier(request, r))
  {
    hide TaskId, EdgesOf, IsChain, FromPlan, Run;
    var g, n := FromPlan(request, approved, steps), |steps|;
    var h := Run(g, ops);
    PlanIsChain(request, approved, steps);
    RunKeepsEdges(g, ops);
    forall x, y | x in Earlier(request, r) && (x, y) in EdgesOf(h)
      ensures y in h.tasks && if Terminal(h.tasks[y].state) then y in Earlier(request, r) else !CanStop(h.tasks[y])
    {
      var k: nat :| 0 < k < r && x == TaskId(request, k);
      StepEdge(g, request, n, k, y);
      if k + 1 < r { StepsRunInOrder(request, approved, steps, ops, k + 1, r); }
    }
  }

  lemma {:induction false} RunKeepsShape(g: Graph, ops: seq<Operation>)
    ensures Run(g, ops).links == g.links && Run(g, ops).tasks.Keys == g.tasks.Keys
    decreases |ops|
  {
    hide Apply, Done;
    if ops != [] {
      ApplySteps(g, ops[0]);
      RunKeepsShape(Apply(g, ops[0]), ops[1..]);
    }
  }

  lemma RunKeepsEdges(g: Graph, ops: seq<Operation>)
    ensures EdgesOf(Run(g, ops)) == EdgesOf(g) && Run(g, ops).tasks.Keys == g.tasks.Keys
  {
    hide EdgesOf, Run;
    RunKeepsShape(g, ops);
    forall id | id in g.tasks ensures Run(g, ops).tasks[id].dependencies == g.tasks[id].dependencies { RunKeepsTask(g, ops, id); }
    SameEdges(g, Run(g, ops));
  }

  /** In every run of a plan, a spread that raises has changed nothing at all. */
  lemma RaisingChangesNothing(request: Str, approved: bool, steps: seq<Step>, ops: seq<Operation>, id: Id, why: Str, terminal: bool)
    ensures var h := Run(FromPlan(request, approved, steps), ops);
      PropagateFailure(h, id, why, terminal).result.Err? ==> PropagateFailure(h, id, why, terminal).graph == h
  {
    hide TaskId, EdgesOf, IsChain, FromPlan, Run, Spread, Walled, SoundGraph, FreshGraph;
    var g, n := FromPlan(request, approved, steps), |steps|;
    var h := Run(g, ops);
    if PropagateFailure(h, id, why, terminal).result.Err? {
      PlanIsChain(request, approved, steps);
      ChainIsFresh(g, request, n);
      FreshIsSound(g);
      RunSound(g, ops);
      PropagationRaisesWhen(h, id, why, terminal);
      var t :| Downstream(h, id, t) && h.tasks[t].state == InProgress;
      RunKeepsEdges(g, ops);
      var r := StepOf(g, request, n, t);
      SameReach(g, h, id, t);
      var i := DownstreamStep(g, request, n, id, r);
      EarlierIsWalled(request, approved, steps, ops, r);
      SpreadWalled(h, Earlier(request, r), Search(h, [id], {id}, []), why, terminal);
    }
  }

  /** Which calls clear a task's flag in a run of a plan: a spread that is not terminal, from a
      start of the call's own choice with nothing running behind it or from a running task that
      fails with retries left, when the task is unfinished and downstream of that start. */
  ghost predicate Unflags(g: Graph, op: Operation, t: Id) {
    match op
    case Propagate(id, _, terminal) => !terminal && !PreventionFlag.RunningDownstream(g, id) && Affected(g, id, t)
    case Result(id, _, errors) => errors != [] && id in g.tasks && g.tasks[id].state == InProgress && HasBudget(g.tasks[id]) && Affected(g, id, t)
    case _ => false
  }

  /** In every run of a plan, a set flag is cleared by exactly these. */
  lemma UnflaggedExactlyWhen(request: Str, approved: bool, steps: seq<Step>, ops: seq<Operation>, op: Operation, t: Id)
    requires t in Run(FromPlan(request, approved, steps), ops).tasks && Run(FromPlan(request, approved, steps), ops).tasks[t].prevented
    ensures var h := Run(FromPlan(request, approved, steps), ops);
      t in Apply(h, op).tasks && (!Apply(h, op).tasks[t].prevented <==> Unflags(h, op, t))
  {
    hide FromPlan, Run, IsChain, SoundGraph, FreshGraph, Spread, Affected, ApproveTask, MarkResult, TransitionTask;
    hide PreventionFlag.RunningDownstream, PreventionFlag.StoppedBy;
    var g := FromPlan(request, approved, steps);
    var h := Run(g, ops);
    PlanIsChain(request, approved, steps);
    ChainIsFresh(g, request, |steps|);
    FreshIsSound(g);
    RunSound(g, ops);
    PreventionFlag.FlagClearedExactlyWhen(h, op, t);
    if op.Propagate? && PreventionFlag.RunningDownstream(h, op.id) { BlockedSpread(request, approved, steps, ops, op.id, op.reason, op.terminal); }
  }

  lemma BlockedSpread(request: Str, approved: bool, steps: seq<Step>, ops: seq<Operation>, id: Id, why: Str, terminal: bool)
    requires SoundGraph(Run(FromPlan(request, approved, steps), ops))
    requires PreventionFlag.RunningDownstream(Run(FromPlan(request, approved, steps), ops), id)
    ensures var h := Run(FromPlan(request, approved, steps), ops); PropagateFailure(h, id, why, terminal).graph == h
  {
    hide FromPlan, Run, SoundGraph, Downstream, PropagateFailure;
    RaisingChangesNothing(request, approved, steps, ops, id, why, terminal);
    PropagationRaisesWhen(Run(FromPlan(request, approved, steps), ops), id, why, terminal);
  }

  lemma StepOf(g: Graph, request: Str, n: nat, t: Id) returns (k: nat)
    requires IsChain(g, request, n) && t in g.tasks
    ensures 0 < k <= n && t == TaskId(request, k)
  {
    hide TaskId;
    assert IsStepId(request, n, t);
    k :| 0 < k <= n && t == TaskId(request, k);
  }

  lemma SameReach(g: Graph, h: Graph, id: Id, t: Id)
    requires EdgesOf(h) == EdgesOf(g) && h.tasks.Keys == g.tasks.Keys && Downstream(h, id, t)
    ensures Downstream(g, id, t)
  {}

  // ------------------------------------------------------------ a run in which it raises

  lemma {:induction false} RunConcat(g: Graph, a: seq<Operation>, b: seq<Operation>)
    ensures Run(g, a + b) == Run(Run(g, a), b)
    decreases |a|
  {
    hide Apply, Done;
    if a == [] {
      assert a + b == b;
    } else {
      RunConcat(Apply(g, a[0]), a[1..], b);
      assert (a + b)[1..] == a[1..] + b;
    }
  }

  /** Every plan of two steps that need no approval has a run after which spreading a failure
      from the first step raises: the first is completed and the second runs. */
  lemma SomeSpreadRaises(request: Str, steps: seq<Step>, why: Str, terminal: bool)
    requires |steps| == 2 && !steps[0].approvalRequired && !steps[1].approvalRequired
    ensures exists ops :: PropagateFailure(Run(FromPlan(request, false, steps), ops), TaskId(request, 1), why, terminal).result.Err?
  {
    hide TaskId, FromPlan, Run, PropagateFailure, Beginning, SoundGraph;
    var g, a, b := FromPlan(request, false, steps), TaskId(request, 1), TaskId(request, 2);
    TwoSteps(request, steps);
    BeginTask(g, a);
    var g1 := Run(g, Beginning(a));
    var finish := [Result(a, map[], [])];
    FinishTask(g1, a);
    var g2 := Run(g1, finish);
    BeginTask(g2, b);
    RunConcat(g1, finish, Beginning(b));
    RunConcat(g, Beginning(a), finish + Beginning(b));
    var ops := Beginning(a) + (finish + Beginning(b));
    var h := Run(g, ops);
    TwoStepsSound(request, steps);
    RunSound(g, ops);
    DirectlyDownstream(h, a, b);
    PropagationRaisesWhen(h, a, why, terminal);
  }

  lemma TwoSteps(request: Str, steps: seq<Step>)
    requires |steps| == 2 && !steps[0].approvalRequired && !steps[1].approvalRequired
    ensures var g, a, b := FromPlan(request, false, steps), TaskId(request, 1), TaskId(request, 2);
      a != b && g.tasks == map[a := FirstTask(steps[0], false, []), b := FirstTask(steps[1], false, [a])]
  {
    hide TaskId;
    if TaskId(request, 1) == TaskId(request, 2) { TaskIdInjective(request, 1, 2); }
    assert steps[..1][..0] == [] && steps[..1][0] == steps[0];
    assert FromPlan(request, false, steps[..1]) == WithStep(FromPlan(request, false, []), request, 1, steps[0], false);
  }

  lemma TwoStepsSound(request: Str, steps: seq<Step>)
    ensures SoundGraph(FromPlan(request, false, steps))
  {
    hide FromPlan, IsChain, SoundGraph;
    PlanIsChain(request, false, steps);
    ChainIsFresh(FromPlan(request, false, steps), request, |steps|);
    FreshIsSound(FromPlan(request, false, steps));
  }

  lemma FinishTask(g: Graph, id: Id)
    requires id in g.tasks && g.tasks[id].state == InProgress && g.tasks[id].approval == NotRequired
    ensures var ops := [Result(id, map[], [])];
      && Run(g, ops).links == g.links
      && Run(g, ops).tasks == g.tasks[id := g.tasks[id].(state := Completed, reason := None, payload := map[], errors := [])]
  {
    var ops := [Result(id, map[], [])];
    assert ops[1..] == [];
    assert Run(g, ops) == Apply(g, ops[0]);
    assert g.tasks[id := g.tasks[id].(state := Completed, reason := None)]
      [id := g.tasks[id].(state := Completed, reason := None, payload := map[], errors := [])] == Run(g, ops).tasks;
  }
}

/** The `terminally_prevented` flag is no record of the past: a later failure that
    still has retries clears it behind a task that was refused for good. Exactly which
    calls clear it, and a run in which one does. */
module PreventionFlag {
  import opened Wrappers
  import opened CodePoints
  import opened Digraph
  import opened Tasks
  import opened TaskGraph
  import opened FailurePropagation
  import opened TaskRuns
  import opened TaskSafety
  import opened TaskPlan

  // ------------------------------------------------------------ what a spread does to the flags

  /** The tasks stopped by a spread, in order, also when it raises in the end. */
  function StoppedBy(g: Graph, id: Id, why: Str, terminal: bool): seq<Id> {
    Spread(Search(g, [id], {id}, []), why, terminal).search.affected
  }

  /** The flags are the search's own on the tasks it has stopped, and as before on all others. */
  ghost predicate FlagsOf(g: Graph, s: Search, terminal: bool) {
    && s.graph.tasks.Keys == g.tasks.Keys
    && forall t :: t in g.tasks ==> s.graph.tasks[t].prevented == if t in s.affected then terminal else g.tasks[t].prevented
  }

  lemma StoppedFlags(g: Graph, target: Id, why: Str)
    requires target in g.tasks
    ensures var h := Stopped(g, target, why).graph;
      h.tasks.Keys == g.tasks.Keys && forall t :: t in g.tasks ==> h.tasks[t].prevented == g.tasks[t].prevented
  {}

  lemma VisitTargetFlags(g: Graph, s: Search, source: Id, target: Id, why: Str, terminal: bool)
    requires FlagsOf(g, s, terminal)
    ensures FlagsOf(g, VisitTarget(s, source, target, why, terminal).search, terminal)
  {
    hide Stopped, Terminal, FlagsOf;
    var v := VisitTarget(s, source, target, why, terminal).search;
    if target in s.graph.tasks && target !in s.seen && !Terminal(s.graph.tasks[target].state) {
      StoppedFlags(s.graph, target, why);
    }
    FlagsMove(g, s, v, target, terminal);
  }

  lemma FlagsMove(g: Graph, s: Search, v: Search, target: Id, terminal: bool)
    requires FlagsOf(g, s, terminal) && v.graph.tasks.Keys == s.graph.tasks.Keys
    requires v.affected == s.affected || v.affected == s.affected + [target]
    requires forall t :: t in s.graph.tasks ==>
      v.graph.tasks[t].prevented == if t == target && v.affected != s.affected then terminal else s.graph.tasks[t].prevented
    ensures FlagsOf(g, v, terminal)
  {}

  lemma {:induction false} VisitTargetsFlags(g: Graph, s: Search, source: Id, targets: seq<Id>, why: Str, terminal: bool)
    requires FlagsOf(g, s, terminal)
    ensures FlagsOf(g, VisitTargets(s, source, targets, why, terminal).search, terminal)
    decreases |targets|
  {
    hide VisitTarget, FlagsOf;
    if targets != [] {
      var v := VisitTarget(s, source, targets[0], why, terminal);
      VisitTargetFlags(g, s, source, targets[0], why, terminal);
      if v.error == None { VisitTargetsFlags(g, v.search, source, targets[1..], why, terminal); }
    }
  }

  lemma {:induction false} SpreadFlags(g: Graph, s: Search, why: Str, terminal: bool)
    requires FlagsOf(g, s, terminal)
    ensures FlagsOf(g, Spread(s, why, terminal).search, terminal)
    decreases Unseen(s), |s.queue|
  {
    hide VisitTargets, TargetsOf, Sorted;
    if s.queue != [] {
      var rest := s.(queue := s.queue[1..]);
      var targets := Sorted(TargetsOf(s.graph, s.queue[0]));
      VisitTargetsShrinks(rest, s.queue[0], targets, why, terminal);
      VisitTargetsFlags(g, rest, s.queue[0], targets, why, terminal);
      var v := VisitTargets(rest, s.queue[0], targets, why, terminal);
      if v.error == None { SpreadFlags(g, v.search, why, terminal); }
    }
  }

  /** Raised or not, a spread sets the flag of the tasks it stops and leaves the others. */
  lemma PropagateFlags(g: Graph, id: Id, why: Str, terminal: bool, t: Id)
    requires t in g.tasks
    ensures var h := PropagateFailure(g, id, why, terminal).graph;
      t in h.tasks && h.tasks[t].prevented == if t in StoppedBy(g, id, why, terminal) then terminal else g.tasks[t].prevented
  {
    hide Spread;
    SpreadFlags(g, Search(g, [id], {id}, []), why, terminal);
  }

  /** Unless something downstream is running, the tasks stopped are those affected. */
  lemma StoppedAreAffected(g: Graph, id: Id, why: Str, terminal: bool, t: Id)
    requires SoundGraph(g) && !RunningDownstream(g, id)
    ensures t in StoppedBy(g, id, why, terminal) <==> Affected(g, id, t)
  {
    hide SoundGraph, Spread, Downstream;
    PropagationRaisesWhen(g, id, why, terminal);
    PropagationMeaning(g, id, why, terminal);
  }

  ghost predicate RunningDownstream(g: Graph, id: Id) { exists t :: Downstream(g, id, t) && g.tasks[t].state == InProgress }

  // ------------------------------------------------------------ exactly which calls clear a flag

  /** A spread that is not terminal stops the task: by a call of its own, before it raises if
      it does, or from a running task that fails with retries left. */
  ghost predicate Clears(g: Graph, op: Operation, t: Id) {
    match op
    case Propagate(id, reason, terminal) =>
      !terminal && if RunningDownstream(g, id) then t in StoppedBy(g, id, reason, terminal) else Affected(g, id, t)
    case Result(id, _, errors) =>
      errors != [] && id in g.tasks && g.tasks[id].state == InProgress && HasBudget(g.tasks[id]) && Affected(g, id, t)
    case _ => false
  }

  lemma TransitionFlags(g: Graph, id: Id, to: TaskState, approval: Option<ApprovalState>, reason: Option<Str>, t: Id)
    requires t in g.tasks
    ensures var h := TransitionTask(g, id, to, approval, reason).graph; t in h.tasks && h.tasks[t].prevented == g.tasks[t].prevented
  {
    hide Done, DependenciesMet, HasBudget;
  }

  lemma RejectFlags(g: Graph, id: Id, why: Str, t: Id)
    requires t in g.tasks && g.tasks[t].prevented
    ensures t in Reject(g, id, why).graph.tasks && Reject(g, id, why).graph.tasks[t].prevented
  {
    hide TransitionTask, PropagateFailure, StoppedBy;
    TransitionFlags(g, id, Rejected, Some(Refused), Some(why), t);
    var o := TransitionTask(g, id, Rejected, Some(Refused), Some(why));
    PropagateFlags(WithEvent(WithEvent(o.graph, ApprovalRejected(id, why)), TaskRejected(id, why)), id, why, true, t);
  }

  lemma ApproveFlags(g: Graph, id: Id, approval: ApprovalState, reason: Option<Str>, t: Id)
    requires t in g.tasks && g.tasks[t].prevented
    ensures var h := ApproveTask(g, id, approval, reason).graph; t in h.tasks && h.tasks[t].prevented
  {
    hide Reject, TransitionTask, OrElse, Compatible, Terminal;
    RejectFlags(g, id, OrElse(reason, FromAscii(APPROVAL_REJECTED)), t);
    TransitionFlags(g, id, Blocked, Some(approval), reason, t);
  }

  lemma FailureFlags(g: Graph, id: Id, payload: map<Str, Str>, errors: seq<Str>, t: Id)
    requires SoundGraph(g) && id in g.tasks && g.tasks[id].state == InProgress && errors != [] && t in g.tasks
    ensures var h := MarkResult(g, id, payload, errors).graph;
      && t in h.tasks && h.tasks[t].prevented == (if Affected(g, id, t) then !HasBudget(g.tasks[id]) else g.tasks[t].prevented)
      && (Affected(g, id, t) ==> h.tasks[t].state == Blocked)
  {
    hide SoundGraph, MarkResult, FailedGraph, PropagateFailure, Joined, HasBudget, Done, EdgesOf, Terminal;
    var f, why, terminal := FailedGraph(g, id, payload, errors), Joined(errors), !HasBudget(g.tasks[id]);
    FailureIsSound(g, id, payload, errors);
    FailureIsSpread(g, id, payload, errors);
    FailedNotDone(g, f, id);
    PropagationNeverRaises(f, id, why, terminal);
    SameEdges(g, f);
    assert Affected(f, id, t) <==> Affected(g, id, t);
  }

  lemma ResultFlags(g: Graph, id: Id, payload: map<Str, Str>, errors: seq<Str>, t: Id)
    requires SoundGraph(g) && t in g.tasks && g.tasks[t].prevented
    ensures var h := MarkResult(g, id, payload, errors).graph;
      t in h.tasks && (!h.tasks[t].prevented <==> Clears(g, Result(id, payload, errors), t))
  {
    hide SoundGraph, PropagateFailure, Joined, Affected, HasBudget;
    if id in g.tasks && g.tasks[id].state == InProgress {
      RunningIsCompatible(g, id);
      if errors != [] { FailureFlags(g, id, payload, errors, t); }
    }
  }

  /** For every operation on every reachable graph: a set flag is cleared exactly by a spread
      that is not terminal and stops the task. */
  lemma FlagClearedExactlyWhen(g: Graph, op: Operation, t: Id)
    requires SoundGraph(g) && t in g.tasks && g.tasks[t].prevented
    ensures t in Apply(g, op).tasks
    ensures !Apply(g, op).tasks[t].prevented <==> Clears(g, op, t)
  {
    hide SoundGraph, TransitionTask, PropagateFailure, ApproveTask, MarkResult, StoppedBy, Affected, MayStart, RunningDownstream;
    match op
    case Transition(id, to, approval, why) => TransitionFlags(g, id, to, approval, why, t);
    case Propagate(id, reason, terminal) =>
      PropagateFlags(g, id, reason, terminal, t);
      if !RunningDownstream(g, id) { StoppedAreAffected(g, id, reason, terminal, t); }
    case Approve(id, decision, why) => ApproveFlags(g, id, decision, why, t);
    case Result(id, payload, errors) => ResultFlags(g, id, payload, errors, t);
    case Start(_, _, _) =>
    case TurnDown(_, _, _) =>
  }

  // ------------------------------------------------------------ a run that clears one

  /** `first` runs with retries left; `middle` waits for it and `last` for `middle`. */
  ghost predicate Waiting(g: Graph, first: Id, middle: Id, last: Id) {
    && first in g.tasks && middle in g.tasks && last in g.tasks
    && first != middle && middle != last && first != last
    && g.tasks[first].state == InProgress && HasBudget(g.tasks[first])
    && first in g.tasks[middle].dependencies && middle in g.tasks[last].dependencies
    && !Terminal(g.tasks[middle].state) && !Terminal(g.tasks[last].state)
  }

  lemma RunningUntouched(g: Graph, id: Id, why: Str, terminal: bool, t: Id)
    requires t in g.tasks && g.tasks[t].state == InProgress
    ensures t in PropagateFailure(g, id, why, terminal).graph.tasks
    ensures PropagateFailure(g, id, why, terminal).graph.tasks[t] == g.tasks[t]
  {
    hide Spread;
    var s := Search(g, [id], {id}, []);
    SpreadOnlyStops(s, why, terminal);
    assert OneOnlyStops(s, Spread(s, why, terminal).search, t, why, terminal);
  }

  lemma TwoDownstream(g: Graph, a: Id, b: Id, c: Id)
    requires Downstream(g, a, b) && c in g.tasks && b in g.tasks[c].dependencies && a != c
    ensures Downstream(g, a, c)
  {
    hide EdgesOf;
    EdgeMeaning(g, b, c);
    ReachesStep(EdgesOf(g), a, b, c);
  }

  /** After the refusal the last task is prevented, and the first one still runs. */
  lemma RefusalPrevents(g: Graph, first: Id, middle: Id, last: Id)
    requires SoundGraph(g) && Waiting(g, first, middle, last)
    ensures var h := ApproveTask(g, middle, Refused, None).graph;
      && SoundGraph(h)
      && first in h.tasks && h.tasks[first] == g.tasks[first]
      && last in h.tasks && h.tasks[last].prevented && h.tasks[last].state == Blocked
  {
    hide ApproveTask, SoundGraph;
    DirectlyDownstream(g, first, middle);
    DirectlyDownstream(g, middle, last);
    HeldBehindRunning(g, first, middle);
    RefusalMeaning(g, middle, None);
    ApproveSteps(g, middle, Refused, None);
    SoundKept(g, ApproveTask(g, middle, Refused, None).graph);
    RefusalLeavesRunning(g, first, middle);
    assert Affected(g, middle, last);
  }

  lemma HeldBehindRunning(g: Graph, first: Id, t: Id)
    requires SoundGraph(g) && first in g.tasks && g.tasks[first].state == InProgress && Downstream(g, first, t)
    ensures g.tasks[t].state != InProgress
  {
    hide SoundGraph, Downstream;
    DownstreamHeldBack(g, first, t);
  }

  lemma RefusalLeavesRunning(g: Graph, first: Id, middle: Id)
    requires first in g.tasks && first != middle && g.tasks[first].state == InProgress
    ensures var h := ApproveTask(g, middle, Refused, None).graph; first in h.tasks && h.tasks[first] == g.tasks[first]
  {
    hide PropagateFailure, Tasks.Transition;
    var why := OrElse(None, FromAscii(APPROVAL_REJECTED));
    var g1 := TransitionTask(g, middle, Rejected, Some(Refused), Some(why)).graph;
    RunningUntouched(WithEvent(WithEvent(g1, ApprovalRejected(middle, why)), TaskRejected(middle, why)), middle, why, true, first);
  }

  /** Two calls after which the flag of the last task is set, and then clear again. */
  lemma FlagIsCleared(g: Graph, first: Id, middle: Id, last: Id, errors: seq<Str>)
    requires SoundGraph(g) && Waiting(g, first, middle, last) && errors != []
    ensures var ops := [Approve(middle, Refused, None), Result(first, map[], errors)];
      var h, k := Run(g, ops[..1]), Run(g, ops);
      && last in h.tasks && h.tasks[last].prevented
      && last in k.tasks && !k.tasks[last].prevented && k.tasks[last].state == Blocked
  {
    hide ApproveTask, MarkResult, SoundGraph;
    RefusalPrevents(g, first, middle, last);
    ApproveSteps(g, middle, Refused, None);
    var h := ApproveTask(g, middle, Refused, None).graph;
    KeepsDependencies(g, h, middle);
    KeepsDependencies(g, h, last);
    DirectlyDownstream(h, first, middle);
    TwoDownstream(h, first, middle, last);
    FailureFlags(h, first, map[], errors, last);
    assert Affected(h, first, last);
    TwoCalls(g, Approve(middle, Refused, None), Result(first, map[], errors));
  }

  lemma KeepsDependencies(g: Graph, h: Graph, id: Id)
    requires Steps(g, h) && id in g.tasks
    ensures id in h.tasks && h.tasks[id].dependencies == g.tasks[id].dependencies
  {
    hide Done, Terminal;
    assert TaskStep(g.tasks[id], h.tasks[id], Done(g));
  }

  /** The situation arises in every plan of three steps that needs no approval. */
  lemma PlansGetThere(request: Str, steps: seq<Step>)
    requires |steps| == 3 && !steps[0].approvalRequired
    ensures var ids, g := TaskId(request, 1), FromPlan(request, false, steps);
      var ops := Beginning(ids);
      Waiting(Run(g, ops), TaskId(request, 1), TaskId(request, 2), TaskId(request, 3)) && SoundGraph(Run(g, ops))
  {
    hide TaskId, FromPlan, SoundGraph, Waiting, Tasks.Transition, Run, Beginning;
    var g, a := FromPlan(request, false, steps), TaskId(request, 1);
    PlanIsChain(request, false, steps);
    ChainIsFresh(g, request, 3);
    FreshIsSound(g);
    FirstOfPlan(request, false, steps);
    BeginTask(g, a);
    RunSound(g, Beginning(a));
    ThreeInLine(g, Run(g, Beginning(a)), request);
  }

  lemma ThreeInLine(g: Graph, h: Graph, request: Str)
    requires IsChain(g, request, 3) && TaskId(request, 1) in g.tasks
    requires h.tasks == g.tasks[TaskId(request, 1) := g.tasks[TaskId(request, 1)].(state := InProgress, reason := None)]
    ensures Waiting(h, TaskId(request, 1), TaskId(request, 2), TaskId(request, 3))
  {
    hide TaskId;
    if TaskId(request, 1) == TaskId(request, 2) { TaskIdInjective(request, 1, 2); }
    if TaskId(request, 1) == TaskId(request, 3) { TaskIdInjective(request, 1, 3); }
    if TaskId(request, 2) == TaskId(request, 3) { TaskIdInjective(request, 2, 3); }
    assert IsStepTask(g, request, 1) && IsStepTask(g, request, 2) && IsStepTask(g, request, 3);
  }
}

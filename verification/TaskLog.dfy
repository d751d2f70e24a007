/** The audit log of a graph tells the whole story of its tasks: replaying the
    recorded changes of state gives the states the tasks are in. */
module TaskLog {
  import opened Wrappers
  import opened CodePoints
  import opened Tasks
  import opened TaskGraph
  import opened TaskRuns
  import opened TaskSafety
  import opened TaskPlan

  /** What one entry says of the task's state, after what the earlier ones said: None when
      the record is broken. A start goes from READY or ASSIGNED to the state it names. */
  function Read(before: Option<TaskState>, e: Event, id: Id): Option<TaskState> {
    if !Speaks(e) || e.id != id then before
    else if e.StateChanged? then
      if before == Some(e.previous) && e.resulting in Successors(e.previous) then Some(e.resulting) else None
    else
      if before in {Some(Ready), Some(Assigned)} && e.resulting == InProgress then Some(InProgress) else None
  }

  /** The entries that record a state. */
  predicate Speaks(e: Event) { e.StateChanged? || e.ExecutionStarted? }

  /** The recorded changes of one task, from PENDING on. */
  function Replay(events: seq<Event>, id: Id): Option<TaskState> {
    if events == [] then Some(Pending) else Read(Replay(events[..|events| - 1], id), events[|events| - 1], id)
  }

  ghost predicate Tells(g: Graph, id: Id) { id in g.tasks && Replay(g.events, id) == Some(g.tasks[id].state) }

  /** The task was started behind the log's back: the log is broken, or still has it waiting. */
  ghost predicate Lost(g: Graph, id: Id) {
    && id in g.tasks
    && (Replay(g.events, id) == None || (g.tasks[id].state == InProgress && Replay(g.events, id) in {Some(Ready), Some(Assigned)}))
  }

  /** What the log tells of it keeps telling; what it has lost it never finds. */
  ghost predicate LogKept(g: Graph, h: Graph) {
    forall id :: (Tells(g, id) ==> Tells(h, id)) && (Lost(g, id) ==> Lost(h, id))
  }

  lemma OneMoreEntry(events: seq<Event>, e: Event, id: Id)
    ensures Replay(events + [e], id) == Read(Replay(events, id), e, id)
  {
    assert (events + [e])[..|events|] == events;
  }

  lemma NoteKept(g: Graph, e: Event)
    requires !Speaks(e)
    ensures LogKept(g, WithEvent(g, e))
  {
    hide Replay;
    forall id ensures Replay(WithEvent(g, e).events, id) == Replay(g.events, id) { OneMoreEntry(g.events, e, id); }
  }

  lemma SameStateKept(g: Graph, id: Id, t: Task)
    requires id in g.tasks && t.state == g.tasks[id].state
    ensures LogKept(g, WithTask(g, id, t))
  {}

  lemma TransitionKept(g: Graph, id: Id, to: TaskState, approval: Option<ApprovalState>, reason: Option<Str>)
    ensures LogKept(g, TransitionTask(g, id, to, approval, reason).graph)
  {
    hide Done, DependenciesMet, HasBudget, Compatible, Replay;
    if id in g.tasks && Tasks.Transition(g.tasks[id], to, approval, reason, Done(g)).Ok? {
      var h := TransitionTask(g, id, to, approval, reason).graph;
      forall k ensures (Tells(g, k) ==> Tells(h, k)) && (Lost(g, k) ==> Lost(h, k)) {
        OneMoreEntry(g.events, StateChanged(id, g.tasks[id].state, to), k);
      }
    }
  }

  lemma VisitTargetKept(s: Search, source: Id, target: Id, why: Str, terminal: bool)
    ensures LogKept(s.graph, VisitTarget(s, source, target, why, terminal).search.graph)
  {
    hide LogKept, TransitionTask, Tells, Lost;
    assert LogKept(s.graph, s.graph) by { LogRefl(s.graph); }
    if target !in s.seen && target in s.graph.tasks && !Terminal(s.graph.tasks[target].state) {
      var stopped := Stopped(s.graph, target, why);
      TransitionKept(s.graph, target, Blocked, None, Some(why));
      if stopped.result.Ok? {
        StoppedHasTarget(s.graph, target, why);
        var t := Prevent(stopped.graph.tasks[target], why, terminal);
        SameStateKept(stopped.graph, target, t);
        NoteKept(WithTask(stopped.graph, target, t), TerminallyPrevented(target, source, why, terminal));
        LogTrans(s.graph, stopped.graph, WithTask(stopped.graph, target, t));
        LogTrans(s.graph, WithTask(stopped.graph, target, t), VisitTarget(s, source, target, why, terminal).search.graph);
      }
    }
  }

  lemma StoppedHasTarget(g: Graph, target: Id, why: Str)
    requires target in g.tasks
    ensures target in Stopped(g, target, why).graph.tasks
  {}

  lemma LogRefl(g: Graph)
    ensures LogKept(g, g)
  {}

  lemma LogTrans(a: Graph, b: Graph, c: Graph)
    requires LogKept(a, b) && LogKept(b, c)
    ensures LogKept(a, c)
  {}

  lemma {:induction false} VisitTargetsKept(s: Search, source: Id, targets: seq<Id>, why: Str, terminal: bool)
    ensures LogKept(s.graph, VisitTargets(s, source, targets, why, terminal).search.graph)
    decreases |targets|
  {
    hide VisitTarget, Tells, Lost;
    if targets != [] {
      VisitTargetKept(s, source, targets[0], why, terminal);
      var v := VisitTarget(s, source, targets[0], why, terminal);
      if v.error == None { VisitTargetsKept(v.search, source, targets[1..], why, terminal); }
    }
  }

  lemma {:induction false} SpreadKept(s: Search, why: Str, terminal: bool)
    ensures LogKept(s.graph, Spread(s, why, terminal).search.graph)
    decreases Unseen(s), |s.queue|
  {
    hide VisitTargets, TargetsOf, Sorted, Tells, Lost;
    if s.queue != [] {
      var rest := s.(queue := s.queue[1..]);
      var targets := Sorted(TargetsOf(s.graph, s.queue[0]));
      VisitTargetsShrinks(rest, s.queue[0], targets, why, terminal);
      VisitTargetsKept(rest, s.queue[0], targets, why, terminal);
      var v := VisitTargets(rest, s.queue[0], targets, why, terminal);
      if v.error == None { SpreadKept(v.search, why, terminal); }
    }
  }

  lemma PropagateKept(g: Graph, id: Id, why: Str, terminal: bool)
    ensures LogKept(g, PropagateFailure(g, id, why, terminal).graph)
  {
    hide Spread, LogKept;
    SpreadKept(Search(g, [id], {id}, []), why, terminal);
  }

  lemma RejectKept(g: Graph, id: Id, why: Str)
    ensures LogKept(g, Reject(g, id, why).graph)
  {
    hide TransitionTask, PropagateFailure, Tells, Lost;
    TransitionKept(g, id, Rejected, Some(Refused), Some(why));
    var o := TransitionTask(g, id, Rejected, Some(Refused), Some(why));
    var g1 := WithEvent(o.graph, ApprovalRejected(id, why));
    var g2 := WithEvent(g1, TaskRejected(id, why));
    NoteKept(o.graph, ApprovalRejected(id, why));
    NoteKept(g1, TaskRejected(id, why));
    PropagateKept(g2, id, why, true);
  }

  lemma ApproveKept(g: Graph, id: Id, approval: ApprovalState, reason: Option<Str>)
    ensures LogKept(g, ApproveTask(g, id, approval, reason).graph)
  {
    hide Reject, TransitionTask, OrElse, Tells, Lost, Compatible, Terminal;
    if id in g.tasks && !Terminal(g.tasks[id].state) {
      RejectKept(g, id, OrElse(reason, FromAscii(APPROVAL_REJECTED)));
      var why := OrElse(reason, FromAscii(if approval == Approved then APPROVAL_GRANTED else APPROVAL_PENDING));
      var changed := WithTask(g, id, g.tasks[id].(approval := approval));
      SameStateKept(g, id, g.tasks[id].(approval := approval));
      NoteKept(changed, ApprovalGranted(id, why));
      NoteKept(changed, ApprovalRequested(id, why));
      TransitionKept(g, id, Blocked, Some(approval), reason);
      NoteKept(TransitionTask(g, id, Blocked, Some(approval), reason).graph, ApprovalRequested(id, why));
    }
  }

  lemma ResultKept(g: Graph, id: Id, payload: map<Str, Str>, errors: seq<Str>)
    ensures LogKept(g, MarkResult(g, id, payload, errors).graph)
  {
    hide TransitionTask, PropagateFailure, Tells, Lost, Joined, HasBudget;
    if id in g.tasks {
      var why := Joined(errors);
      var to, reason := if errors != [] then Failed else Completed, if errors != [] then Some(why) else None;
      TransitionKept(g, id, to, None, reason);
      var o := TransitionTask(g, id, to, None, reason);
      if o.result.Ok? {
        TransitionHasTask(g, id, to, None, reason);
        var t := o.graph.tasks[id].(payload := payload, errors := errors);
        SameStateKept(o.graph, id, t);
        NoteKept(WithTask(o.graph, id, t), TaskFailed(id, why));
        NoteKept(WithTask(o.graph, id, t), TaskCompleted(id, payload));
        PropagateKept(WithEvent(WithTask(o.graph, id, t), TaskFailed(id, why)), id, why, !HasBudget(t));
      }
    }
  }

  lemma TransitionHasTask(g: Graph, id: Id, to: TaskState, approval: Option<ApprovalState>, reason: Option<Str>)
    requires id in g.tasks
    ensures id in TransitionTask(g, id, to, approval, reason).graph.tasks
  {}

  /** A start of the task by a dispatcher that was not handed the log. */
  predicate StartsSilently(g: Graph, op: Operation, id: Id) {
    op.Start? && op.id == id && !op.logged && id in g.tasks && MayStart(g.tasks[id], op.completed)
  }

  lemma LoggedStartKept(g: Graph, id: Id, completed: set<Id>)
    ensures LogKept(g, StartTask(g, id, completed, true))
  {
    hide DependenciesMet, Replay;
    if id in g.tasks && MayStart(g.tasks[id], completed) {
      var h := StartTask(g, id, completed, true);
      forall k ensures (Tells(g, k) ==> Tells(h, k)) && (Lost(g, k) ==> Lost(h, k)) {
        OneMoreEntry(g.events, PreDispatchPolicy(id, true), k);
        OneMoreEntry(g.events + [PreDispatchPolicy(id, true)], ExecutionStarted(id, InProgress), k);
      }
    }
  }

  /** A silent start matters to no other task. */
  lemma SilentStart(g: Graph, id: Id, completed: set<Id>, k: Id)
    ensures var h := StartTask(g, id, completed, false);
      && (Lost(g, k) ==> Lost(h, k))
      && (k != id || !StartsSilently(g, Start(id, completed, false), id) ==> (Tells(g, k) ==> Tells(h, k)))
      && (k == id && StartsSilently(g, Start(id, completed, false), id) && Tells(g, k) ==> Lost(h, k))
  {
    hide DependenciesMet, Replay;
  }

  /** Whatever the operation, raised or not. */
  lemma OperationKept(g: Graph, op: Operation, id: Id)
    ensures Lost(g, id) ==> Lost(Apply(g, op), id)
    ensures Tells(g, id) ==> if StartsSilently(g, op, id) then Lost(Apply(g, op), id) else Tells(Apply(g, op), id)
  {
    hide TransitionTask, PropagateFailure, ApproveTask, MarkResult, StartTask, Tells, Lost, MayStart;
    match op
    case Transition(k, to, approval, why) => TransitionKept(g, k, to, approval, why);
    case Propagate(k, reason, terminal) => PropagateKept(g, k, reason, terminal);
    case Approve(k, decision, why) => ApproveKept(g, k, decision, why);
    case Result(k, payload, errors) => ResultKept(g, k, payload, errors);
    case Start(k, completed, logged) => if logged { LoggedStartKept(g, k, completed); } else { SilentStart(g, k, completed, id); }
    case TurnDown(k, allowed, logged) => if logged { NoteKept(g, PreDispatchPolicy(k, allowed)); }
  }

  /** Every start of the task in the run is by a dispatcher that was handed the log. */
  predicate AlwaysLogged(g: Graph, ops: seq<Operation>, id: Id)
    decreases |ops|
  {
    ops != [] ==> !StartsSilently(g, ops[0], id) && AlwaysLogged(Apply(g, ops[0]), ops[1..], id)
  }

  lemma LostIsNotTold(g: Graph, id: Id)
    requires Lost(g, id)
    ensures !Tells(g, id)
  {}

  lemma {:induction false} LostForGood(g: Graph, ops: seq<Operation>, id: Id)
    requires Lost(g, id)
    ensures Lost(Run(g, ops), id)
    decreases |ops|
  {
    hide Apply, Lost, Tells;
    if ops != [] {
      OperationKept(g, ops[0], id);
      LostForGood(Apply(g, ops[0]), ops[1..], id);
    }
  }

  /** In every run, of calls on the graph that return or raise and of dispatches, the log tells
      a task's state exactly when the task was never started without the log. */
  lemma {:induction false} LogTellsStates(g: Graph, ops: seq<Operation>, id: Id)
    requires Tells(g, id)
    ensures Tells(Run(g, ops), id) <==> AlwaysLogged(g, ops, id)
    decreases |ops|
  {
    hide Apply, Lost, Tells, StartsSilently;
    if ops != [] {
      var h := Apply(g, ops[0]);
      OperationKept(g, ops[0], id);
      if StartsSilently(g, ops[0], id) {
        LostForGood(h, ops[1..], id);
        LostIsNotTold(Run(h, ops[1..]), id);
      } else {
        LogTellsStates(h, ops[1..], id);
      }
    }
  }

  ghost predicate Quiet(events: seq<Event>) { forall e :: e in events ==> !Speaks(e) }

  lemma {:induction false} QuietReplay(events: seq<Event>, id: Id)
    requires Quiet(events)
    ensures Replay(events, id) == Some(Pending)
  {
    if events != [] {
      assert events == events[..|events| - 1] + [events[|events| - 1]];
      QuietReplay(events[..|events| - 1], id);
    }
  }

  lemma {:induction false} PlanIsQuiet(request: Str, approved: bool, steps: seq<Step>)
    ensures Quiet(FromPlan(request, approved, steps).events)
  {
    hide TaskId;
    if steps != [] { PlanIsQuiet(request, approved, steps[..|steps| - 1]); }
  }

  /** The log says READY of a task that runs: in every plan whose first step needs no approval,
      after that step was made ready and dispatched without the log. */
  lemma SilentStartIsLost(request: Str, steps: seq<Step>)
    requires steps != [] && !steps[0].approvalRequired
    ensures var id, g := TaskId(request, 1), FromPlan(request, false, steps);
      var h := Run(g, [Transition(id, Ready, None, None), Start(id, {}, false)]);
      id in h.tasks && h.tasks[id].state == InProgress && Replay(h.events, id) == Some(Ready)
  {
    hide TaskId, FromPlan, Run, Replay, Quiet;
    var id, g := TaskId(request, 1), FromPlan(request, false, steps);
    var ready := Apply(g, Transition(id, Ready, None, None));
    FirstOfPlan(request, false, steps);
    TwoCalls(g, Transition(id, Ready, None, None), Start(id, {}, false));
    PlanIsQuiet(request, false, steps);
    QuietReplay(g.events, id);
    OneTransition(g, id, Ready);
    OneMoreEntry(g.events, StateChanged(id, Pending, Ready), id);
    assert MayStart(ready.tasks[id], {});
  }

  /** The same for a mission started from a plan, whose log tells every state at first. */
  lemma MissionLogTells(request: Str, approved: bool, steps: seq<Step>, ops: seq<Operation>, id: Id)
    requires id in FromPlan(request, approved, steps).tasks
    ensures var g := FromPlan(request, approved, steps);
      Tells(Run(g, ops), id) <==> AlwaysLogged(g, ops, id)
  {
    hide FromPlan, Run, IsChain, Replay, AlwaysLogged;
    var g := FromPlan(request, approved, steps);
    PlanIsChain(request, approved, steps);
    ChainIsFresh(g, request, |steps|);
    PlanIsQuiet(request, approved, steps);
    QuietReplay(g.events, id);
    LogTellsStates(g, ops, id);
  }
}

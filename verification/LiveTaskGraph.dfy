/** The task graph held as objects: every method does in place what the function of
    the same name in TaskGraph says. */
module LiveTaskGraph {
  import opened Wrappers
  import opened CodePoints
  import opened Tasks
  import G = TaskGraph

  class MissionTaskGraph {
    var tasks: map<Id, MissionTask>
    var links: seq<G.Link>
    const auditLog: G.TaskAuditLog
    /** The graph as a value. */
    ghost var Model: G.Graph

    ghost var Repr: set<MissionTask>

    ghost predicate Valid()
      reads this, auditLog, Repr
    {
      && links == Model.links && auditLog.events == Model.events && tasks.Keys == Model.tasks.Keys
      && forall id :: id in tasks ==> tasks[id] in Repr && tasks[id].id == id && tasks[id].View() == Model.tasks[id]
    }

    /** The call has had exactly this outcome. */
    ghost predicate Had(o: G.Outcome<()>, raised: Option<Error>)
      reads this
    {
      Model == o.graph && raised == if o.result.Err? then Some(o.result.error) else None
    }

    constructor FromExecutionPlan(request: Str, approved: bool, steps: seq<G.Step>)
      ensures Valid() && fresh(Repr) && fresh(auditLog)
      ensures Model == G.FromPlan(request, approved, steps)
    {
      tasks, links, Repr, Model := map[], [], {}, G.Graph(map[], [], []);
      auditLog := new G.TaskAuditLog();
      new;
      var n := 0;
      assert steps[..0] == [];
      while n < |steps|
        invariant n <= |steps|
        invariant Valid() && fresh(Repr)
        invariant Model == G.FromPlan(request, approved, steps[..n])
      {
        assert steps[..n + 1][..n] == steps[..n];
        n := n + 1;
        AddStep(request, n, steps[n - 1], approved);
      }
      assert steps[..n] == steps;
    }

    /** The task for step n, depending on the one before it. */
    method AddStep(request: Str, n: nat, step: G.Step, approved: bool)
      requires Valid() && n > 0
      modifies this, auditLog
      ensures Valid() && fresh(Repr - old(Repr))
      ensures Model == G.WithStep(old(Model), request, n, step, approved)
    {
      hide MissionTask.View, G.TaskId, G.WithStep, Valid;
      var id := G.TaskId(request, n);
      G.StepByStep(Model, request, n, step, approved);
      var task := new MissionTask(id, G.FirstApproval(step, approved), 3, true);
      Place(id, task);
      Record(G.TaskCreated(id, step.name));
      if n > 1 {
        var prior := G.TaskId(request, n - 1);
        AddLink(G.Link(prior, id));
        assert [] + [prior] == [prior];
        AddDependency(id, prior);
        Record(G.DependencyBlocked(id, prior));
      }
    }

    /** `tasks[id] = task` for a new task object. */
    method Place(id: Id, task: MissionTask)
      requires Valid() && task.id == id && task !in Repr
      modifies this`tasks, this`Repr, this`Model
      ensures Valid() && tasks == old(tasks)[id := task] && Repr == old(Repr) + {task}
      ensures Model == G.WithTask(old(Model), id, task.View())
    {
      hide MissionTask.View;
      tasks, Repr := tasks[id := task], Repr + {task};
      Model := G.WithTask(Model, id, task.View());
    }

    method AddDependency(id: Id, prior: Id)
      requires Valid() && id in tasks
      modifies this`Model, tasks[id]
      ensures Valid()
      ensures Model == G.WithTask(old(Model), id, old(Model).tasks[id].(dependencies := old(Model).tasks[id].dependencies + [prior]))
    {
      hide MissionTask.View;
      tasks[id].AddDependency(prior);
      Update(id);
    }

    method AddLink(l: G.Link)
      requires Valid()
      modifies this`links, this`Model
      ensures Valid() && Model == G.WithLink(old(Model), l)
    {
      hide MissionTask.View;
      links := links + [l];
      Model := G.WithLink(Model, l);
    }

    /** Brings the model up to date after a change to one task object. */
    ghost method Update(id: Id)
      requires links == Model.links && auditLog.events == Model.events && tasks.Keys == Model.tasks.Keys && id in tasks
      requires forall k :: k in tasks ==> tasks[k] in Repr && tasks[k].id == k && (k != id ==> tasks[k].View() == Model.tasks[k])
      modifies this`Model
      ensures Valid() && Model == G.WithTask(old(Model), id, tasks[id].View())
    {
      hide MissionTask.View;
      Model := G.WithTask(Model, id, tasks[id].View());
    }

    /** Brings the model up to date after a task and the log were changed from outside. */
    ghost method Absorb(id: Id)
      requires links == Model.links && tasks.Keys == Model.tasks.Keys && id in tasks
      requires forall k :: k in tasks ==> tasks[k] in Repr && tasks[k].id == k && (k != id ==> tasks[k].View() == Model.tasks[k])
      modifies this`Model
      ensures Valid() && Model == G.Graph(old(Model).tasks[id := tasks[id].View()], old(Model).links, auditLog.events)
    {
      hide MissionTask.View;
      Model := G.Graph(Model.tasks[id := tasks[id].View()], Model.links, auditLog.events);
    }

    method Record(e: G.Event)
      requires Valid()
      modifies auditLog, this`Model
      ensures Valid() && Model == G.WithEvent(old(Model), e)
    {
      hide MissionTask.View;
      auditLog.Record(e);
      Model := G.WithEvent(Model, e);
    }

    function CompletedTasks(): (ids: set<Id>)
      requires Valid()
      reads this, auditLog, Repr
      ensures ids == G.Done(Model)
    {
      set k | k in tasks && tasks[k].state == Completed
    }

    method TransitionTask(id: Id, to: TaskState, approval: Option<ApprovalState>, reason: Option<Str>)
      returns (raised: Option<Error>)
      requires Valid()
      modifies auditLog, this`Model, Repr
      ensures Valid()
      ensures Had(G.TransitionTask(old(Model), id, to, approval, reason), raised)
    {
      hide Transition, G.Done, CompletedTasks, MissionTask.View;
      if id !in tasks { return Some(UnknownTask); }
      var completed := CompletedTasks();
      var task := tasks[id];
      var previous := task.State();
      raised := task.TransitionTo(to, approval, reason, completed);
      if raised.Some? { return; }
      Update(id);
      Record(G.StateChanged(id, previous, to));
    }

    /** One target of the search: `queue`, `seen` and `affected` are the search's own. */
    method VisitTarget(source: Id, target: Id, why: Str, terminal: bool, queue: seq<Id>, seen: set<Id>, affected: seq<Id>)
      returns (queue': seq<Id>, seen': set<Id>, affected': seq<Id>, raised: Option<Error>)
      requires Valid()
      modifies auditLog, this`Model, Repr
      ensures Valid()
      ensures G.Visit(G.Search(Model, queue', seen', affected'), raised)
        == G.VisitTarget(G.Search(old(Model), queue, seen, affected), source, target, why, terminal)
    {
      hide Transition, MissionTask.View;
      queue', seen', affected', raised := queue, seen, affected, None;
      if target in seen || target !in tasks { return; }
      seen', queue' := seen + {target}, queue + [target];
      var dependent := tasks[target];
      var state := dependent.State();
      if Terminal(state) { return; }
      if state !in {Blocked, Failed} {
        raised := TransitionTask(target, Blocked, None, Some(why));
        if raised.Some? { return; }
      }
      dependent.SetPrevented(why, terminal);
      Update(target);
      affected' := affected + [target];
      Record(G.TerminallyPrevented(target, source, why, terminal));
    }

    method VisitTargets(source: Id, targets: seq<Id>, why: Str, terminal: bool, queue: seq<Id>, seen: set<Id>, affected: seq<Id>)
      returns (queue': seq<Id>, seen': set<Id>, affected': seq<Id>, raised: Option<Error>)
      requires Valid()
      modifies auditLog, this`Model, Repr
      ensures Valid()
      ensures G.Visit(G.Search(Model, queue', seen', affected'), raised)
        == G.VisitTargets(G.Search(old(Model), queue, seen, affected), source, targets, why, terminal)
    {
      hide G.VisitTarget, Valid;
      queue', seen', affected', raised := queue, seen, affected, None;
      var i := 0;
      assert targets[i..] == targets;
      while i < |targets|
        invariant i <= |targets| && Valid() && raised == None
        invariant G.VisitTargets(G.Search(Model, queue', seen', affected'), source, targets[i..], why, terminal)
          == G.VisitTargets(G.Search(old(Model), queue, seen, affected), source, targets, why, terminal)
      {
        assert targets[i..][0] == targets[i] && targets[i..][1..] == targets[i + 1..];
        queue', seen', affected', raised := VisitTarget(source, targets[i], why, terminal, queue', seen', affected');
        if raised.Some? { return; }
        i := i + 1;
      }
    }

    function Targets(source: Id): (ids: set<Id>)
      requires Valid()
      reads this, auditLog, Repr
      ensures ids == G.TargetsOf(Model, source)
    {
      (set l | l in links && l.source == source :: l.target) + (set id | id in tasks && source in tasks[id].dependencies)
    }

    method PropagateFailure(id: Id, why: Str, terminal: bool) returns (affected: seq<Id>, raised: Option<Error>)
      requires Valid()
      modifies auditLog, this`Model, Repr
      ensures Valid()
      ensures G.Outcome(Model, if raised.Some? then Err(raised.value) else Ok(affected)) == G.PropagateFailure(old(Model), id, why, terminal)
    {
      hide G.VisitTargets, G.TargetsOf, Targets, Sorted, Valid;
      var queue, seen := [id], {id};
      affected, raised := [], None;
      while queue != []
        invariant Valid() && raised == None
        invariant G.Spread(G.Search(Model, queue, seen, affected), why, terminal) == G.Spread(G.Search(old(Model), [id], {id}, []), why, terminal)
        decreases Model.tasks.Keys - seen, |queue|
      {
        ghost var before := G.Search(Model, queue, seen, affected);
        var source := queue[0];
        queue := queue[1..];
        var targets := Sorted(Targets(source));
        G.VisitTargetsShrinks(before.(queue := queue), source, targets, why, terminal);
        queue, seen, affected, raised := VisitTargets(source, targets, why, terminal, queue, seen, affected);
        if raised.Some? { return; }
      }
    }

    method ApproveTask(id: Id, approval: ApprovalState, reason: Option<Str>) returns (raised: Option<Error>)
      requires Valid()
      modifies auditLog, this`Model, Repr
      ensures Valid()
      ensures Had(G.ApproveTask(old(Model), id, approval, reason), raised)
    {
      hide G.Reject, G.Grant, G.Request, G.OrElse, MissionTask.View;
      if id !in tasks { return Some(UnknownTask); }
      var state := tasks[id].State();
      if Terminal(state) { return Some(TerminalTask); }
      match approval
      case Refused =>
        raised := Reject(id, G.OrElse(reason, FromAscii(G.APPROVAL_REJECTED)));
      case Approved =>
        raised := Grant(id, G.OrElse(reason, FromAscii(G.APPROVAL_GRANTED)));
      case AwaitingApproval =>
        raised := Request(id, AwaitingApproval, reason);
      case Escalated =>
        raised := Request(id, Escalated, reason);
      case NotRequired =>
        return None;
    }

    method Reject(id: Id, why: Str) returns (raised: Option<Error>)
      requires Valid() && id in tasks
      modifies auditLog, this`Model, Repr
      ensures Valid()
      ensures Had(G.Reject(old(Model), id, why), raised)
    {
      hide G.TransitionTask, G.PropagateFailure, Valid;
      raised := TransitionTask(id, Rejected, Some(Refused), Some(why));
      if raised.Some? { return; }
      Record(G.ApprovalRejected(id, why));
      Record(G.TaskRejected(id, why));
      var _, failure := PropagateFailure(id, why, true);
      raised := failure;
    }

    method SetApproval(id: Id, approval: ApprovalState)
      requires Valid() && id in tasks
      modifies this`Model, Repr
      ensures Valid()
      ensures Model == G.WithTask(old(Model), id, old(Model).tasks[id].(approval := approval))
    {
      hide MissionTask.View;
      tasks[id].SetApproval(approval);
      Update(id);
    }

    method StateOf(id: Id) returns (state: TaskState)
      requires Valid() && id in tasks
      ensures id in Model.tasks && state == Model.tasks[id].state
    {
      state := tasks[id].State();
    }

    method Grant(id: Id, why: Str) returns (raised: Option<Error>)
      requires Valid() && id in tasks
      modifies auditLog, this`Model, Repr
      ensures Valid()
      ensures Had(G.Grant(old(Model), id, why), raised)
    {
      hide Valid;
      var state := StateOf(id);
      if !Compatible(state, Approved) { return Some(IncompatibleApproval); }
      SetApproval(id, Approved);
      Record(G.ApprovalGranted(id, why));
      return None;
    }

    method Request(id: Id, approval: ApprovalState, reason: Option<Str>) returns (raised: Option<Error>)
      requires Valid() && id in tasks
      modifies auditLog, this`Model, Repr
      ensures Valid()
      ensures Had(G.Request(old(Model), id, approval, reason), raised)
    {
      hide Valid, G.TransitionTask, G.OrElse, FromAscii;
      var why := G.OrElse(reason, FromAscii(G.APPROVAL_PENDING));
      var state := StateOf(id);
      if state == Blocked {
        if !Compatible(Blocked, approval) { return Some(IncompatibleApproval); }
        SetApproval(id, approval);
      } else {
        raised := TransitionTask(id, Blocked, Some(approval), reason);
        if raised.Some? { return; }
      }
      Record(G.ApprovalRequested(id, why));
      raised := None;
    }

    method MarkTaskResult(id: Id, payload: map<Str, Str>, errors: seq<Str>) returns (raised: Option<Error>)
      requires Valid()
      modifies auditLog, this`Model, Repr
      ensures Valid()
      ensures Had(G.MarkResult(old(Model), id, payload, errors), raised)
    {
      hide MissionTask.View, G.PropagateFailure, Transition, G.Joined, HasBudget;
      if id !in tasks { return Some(UnknownTask); }
      var why := G.Joined(errors);
      if errors != [] {
        raised := TransitionTask(id, Failed, None, Some(why));
      } else {
        raised := TransitionTask(id, Completed, None, None);
      }
      if raised.Some? { return; }
      tasks[id].SetResult(payload, errors);
      Update(id);
      if errors != [] {
        var spent := tasks[id].Exhausted();
        Record(G.TaskFailed(id, why));
        var _, failure := PropagateFailure(id, why, spent);
        raised := failure;
      } else {
        Record(G.TaskCompleted(id, payload));
      }
    }

    predicate AnyIs(s: TaskState): (found: bool)
      requires Valid()
      reads this, auditLog, Repr
      ensures found == G.SomeTask(Model, s)
    {
      exists id :: id in tasks && tasks[id].state == s
    }

    predicate AnyPrevented(): (found: bool)
      requires Valid()
      reads this, auditLog, Repr
      ensures found == G.SomeTaskPrevented(Model)
    {
      exists id :: id in tasks && tasks[id].state == Blocked && tasks[id].prevented
    }

    predicate AllAreCompleted(): (all: bool)
      requires Valid()
      reads this, auditLog, Repr
      ensures all == G.AllCompleted(Model)
    {
      forall id :: id in tasks ==> tasks[id].state == Completed
    }

    method ResolveMissionState() returns (state: G.MissionState)
      requires Valid()
      ensures state == G.MissionStateOf(Model)
    {
      hide MissionTask.View, G.SomeTask, G.SomeTaskPrevented, G.AllCompleted, AnyIs, AnyPrevented, AllAreCompleted;
      if |tasks.Keys| == 0 { return G.MissionBlocked; }
      if AnyIs(Rejected) { return G.MissionRejected; }
      if AnyIs(Failed) { return G.MissionFailed; }
      if AnyPrevented() { return G.MissionFailed; }
      if AnyIs(Cancelled) { return G.MissionCancelled; }
      if AllAreCompleted() { return G.MissionCompleted; }
      return G.MissionBlocked;
    }
  }
}

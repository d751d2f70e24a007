/** A dispatcher at work on a task of a graph, with the graph's own log, as one operation
    on the graph. */
module GovernedMission {
  import opened Wrappers
  import opened CodePoints
  import opened Tasks
  import opened TaskGraph
  import opened TaskRuns
  import opened PolicyEvaluation
  import opened Registrations
  import opened LiveTaskGraph
  import opened Dispatch

  /** Dispatched, it has been started and the log says so; turned down, it is as it was, and
      the log may hold the policy's answer. */
  ghost predicate IsDispatch(g: Graph, h: Graph, id: Id, completed: set<Id>, result: DispatchResult) {
    if result.Execution? then h == Apply(g, Start(id, completed, true))
    else h == g || exists allowed :: h == Apply(g, TurnDown(id, allowed, true))
  }

  method DispatchTask(
    graph: MissionTaskGraph, dispatcher: MissionExecutionDispatcher, id: Id, c: Dispatch.Call, behaviour: (Executor, Request) -> Reply)
    returns (result: DispatchResult)
    requires graph.Valid() && id in graph.tasks && c.taskId == id && Tidy(dispatcher.runtime.View())
    modifies graph`Model, graph.auditLog, graph.Repr, dispatcher.runtime`reservations, dispatcher.runtime`Calls
    ensures graph.Valid() && dispatcher.runtime.View() == old(dispatcher.runtime.View())
    ensures IsDispatch(old(graph.Model), graph.Model, id, c.completed, result)
  {
    hide MissionTask.View, IsDispatch, DispatchNotes, Authorized, MayStart;
    ghost var g, task, registry := graph.Model, graph.tasks[id].View(), dispatcher.runtime.View();
    result := dispatcher.Dispatch(graph.tasks[id], c, graph.auditLog, behaviour);
    graph.Absorb(id);
    Recorded(g, graph.Model, task, id, c, registry, dispatcher.divisions, result);
  }

  /** The entries and the task's new state make up the operation. */
  lemma Recorded(
    g: Graph, h: Graph, task: Task, id: Id, c: Dispatch.Call, registry: Registry, divisions: set<Str>, result: DispatchResult)
    requires id in g.tasks && g.tasks[id] == task && c.taskId == id
    requires result.Execution? <==> Authorized(task, c, registry, divisions)
    requires h == Graph(g.tasks[id := if result.Execution? then task.(state := InProgress, reason := None) else task], g.links,
                        g.events + DispatchNotes(task, c, registry, divisions))
    ensures IsDispatch(g, h, id, c.completed, result)
  {
    hide ValidContext, PlainData, EffectiveContext, EffectivePayload, NamedRegistration, AuthorizedFor, ReservedNotes;
    assert g.tasks[id := task] == g.tasks;
    if result.Execution? {
      StartedNotes(task, c, EntryFor(registry, c), divisions);
      assert g.events + [PreDispatchPolicy(id, true), ExecutionStarted(id, InProgress)]
        == g.events + [PreDispatchPolicy(id, true)] + [ExecutionStarted(id, InProgress)];
    } else {
      var notes := DispatchNotes(task, c, registry, divisions);
      TurnedDownNotes(task, c, registry, divisions);
      if notes == [] {
        assert g.events + [] == g.events;
      } else {
        hide Authorized, DispatchNotes;
        var allowed :| notes == [PreDispatchPolicy(id, allowed)];
        assert h == Apply(g, TurnDown(id, allowed, true));
      }
    }
  }

  lemma StartedNotes(t: Task, c: Dispatch.Call, entry: Entry, divisions: set<Str>)
    requires WellFormed(c) && AuthorizedFor(t, c, entry, divisions)
    ensures ReservedNotes(t, c, entry, divisions) == [PreDispatchPolicy(c.taskId, true), ExecutionStarted(c.taskId, InProgress)]
    ensures MayStart(t, c.completed)
  {
    hide ValidContext, PlainData, EffectiveContext, EffectivePayload, StillValid, AllowedNow, ContractData, Rebuilt, MayStart, Agrees;
  }

  lemma TurnedDownNotes(t: Task, c: Dispatch.Call, r: Registry, divisions: set<Str>)
    requires !Authorized(t, c, r, divisions)
    ensures DispatchNotes(t, c, r, divisions) == [] || exists allowed :: DispatchNotes(t, c, r, divisions) == [PreDispatchPolicy(c.taskId, allowed)]
  {
    hide ValidContext, PlainData, EffectiveContext, EffectivePayload, NamedRegistration, AuthorizedFor, AllowedNow, ContractData, Rebuilt;
    if WellFormed(c) && Current(r, c) && PolicyNotes(t, c, EntryFor(r, c)) != [] {
      var allowed := AllowedNow(c.policy.value, Rebuilt(t, c, EntryFor(r, c)));
      assert DispatchNotes(t, c, r, divisions) == [PreDispatchPolicy(c.taskId, allowed)];
    }
  }
}

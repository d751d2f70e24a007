/** What spreading a failure comes to: it stops exactly the unfinished tasks that
    depend on the failed one, directly or through others, or raises. */
module FailurePropagation {
  import opened Wrappers
  import opened CodePoints
  import opened Digraph
  import opened Tasks
  import opened TaskGraph

  /** From a task to each task recorded as depending on it. */
  function EdgesOf(g: Graph): Edges<Id> {
    (set l | l in g.links && l.target in g.tasks :: (l.source, l.target))
    + (set id, d | id in g.tasks && d in g.tasks[id].dependencies :: (d, id))
  }

  lemma EdgeMeaning(g: Graph, source: Id, target: Id)
    ensures (source, target) in EdgesOf(g) <==> target in TargetsOf(g, source) && target in g.tasks
  {
    if (source, target) in EdgesOf(g) && target !in g.tasks { assert false; }
    if target in TargetsOf(g, source) && target in g.tasks && !(exists l :: l in g.links && l.source == source && l.target == target) {
      assert source in g.tasks[target].dependencies;
    }
  }

  lemma SameEdges(g: Graph, h: Graph)
    requires g.links == h.links && g.tasks.Keys == h.tasks.Keys
    requires forall id :: id in g.tasks ==> g.tasks[id].dependencies == h.tasks[id].dependencies
    ensures EdgesOf(g) == EdgesOf(h)
    ensures forall id :: TargetsOf(g, id) == TargetsOf(h, id)
  {}

  /** A task downstream of the given one, however many links away. */
  ghost predicate Downstream(g: Graph, id: Id, t: Id) { t in g.tasks && t != id && Reaches(EdgesOf(g), id, t) }

  lemma DirectlyDownstream(g: Graph, a: Id, b: Id)
    requires b in g.tasks && a in g.tasks[b].dependencies && a != b
    ensures Downstream(g, a, b)
  {
    hide EdgesOf;
    EdgeMeaning(g, a, b);
    ReachesSelf(EdgesOf(g), a);
    ReachesStep(EdgesOf(g), a, a, b);
  }

  /** Downstream and not finished for good. */
  ghost predicate Affected(g: Graph, id: Id, t: Id) { Downstream(g, id, t) && !Terminal(g.tasks[t].state) }

  /** The task is stopped already, or may be moved to BLOCKED. */
  predicate CanStop(t: Task) { t.state in {Blocked, Failed} || (Blocked in Successors(t.state) && Compatible(Blocked, t.approval)) }

  function AfterStop(t: Task, why: Str, terminal: bool): Task {
    Prevent(t, why, terminal).(state := if t.state == Failed then Failed else Blocked)
  }

  lemma StoppedMeaning(g: Graph, target: Id, why: Str, terminal: bool)
    requires target in g.tasks
    ensures Stopped(g, target, why).result.Ok? <==> CanStop(g.tasks[target])
    ensures CanStop(g.tasks[target]) ==>
      var h := Stopped(g, target, why).graph;
      && h.tasks.Keys == g.tasks.Keys && h.links == g.links
      && Prevent(h.tasks[target], why, terminal) == AfterStop(g.tasks[target], why, terminal)
      && forall t :: t in g.tasks && t != target ==> h.tasks[t] == g.tasks[t]
  {}

  // ------------------------------------------------------------ the search's invariant

  /** Found so far: the start and tasks downstream of it. */
  ghost predicate Found(g: Graph, id: Id, s: Search) {
    && id in s.seen
    && (forall t :: t in s.seen ==> t == id || t in g.tasks)
    && (forall t :: t in s.seen ==> Reaches(EdgesOf(g), id, t))
    && (forall t :: t in s.queue ==> t in s.seen)
  }

  predicate Touched(g: Graph, id: Id, seen: set<Id>, t: Id)
    requires t in g.tasks
  {
    t in seen && t != id && !Terminal(g.tasks[t].state)
  }

  ghost predicate Kept(g: Graph, id: Id, s: Search, why: Str, terminal: bool) {
    && s.graph.tasks.Keys == g.tasks.Keys && s.graph.links == g.links
    && forall t :: t in g.tasks ==>
      s.graph.tasks[t] == if Touched(g, id, s.seen, t) then AfterStop(g.tasks[t], why, terminal) else g.tasks[t]
  }

  ghost predicate Listed(g: Graph, id: Id, s: Search) {
    && (forall t :: t in s.affected <==> t in g.tasks && Touched(g, id, s.seen, t))
    && (forall t :: t in g.tasks && Touched(g, id, s.seen, t) ==> CanStop(g.tasks[t]))
    && (forall i, j :: 0 <= i < j < |s.affected| ==> s.affected[i] != s.affected[j])
  }

  ghost predicate Sound(g: Graph, id: Id, s: Search, why: Str, terminal: bool) {
    Found(g, id, s) && Kept(g, id, s, why, terminal) && Listed(g, id, s)
  }

  /** Everything found has had its dependents found, except what still waits in the
      queue and the rest of the targets of the task being visited. */
  ghost predicate Covers(g: Graph, s: Search, source: Id, rest: set<Id>) {
    forall x, y :: x in s.seen && (x, y) in EdgesOf(g) ==> x in s.queue || y in s.seen || (x == source && y in rest)
  }

  // ------------------------------------------------------------ one target

  /** One more task found, and stopped unless it is finished. */
  ghost predicate Advanced(s: Search, s': Search, target: Id, why: Str, terminal: bool)
    requires target in s.graph.tasks
  {
    var t := s.graph.tasks[target];
    && s'.seen == s.seen + {target} && s'.queue == s.queue + [target]
    && s'.affected == (if Terminal(t.state) then s.affected else s.affected + [target])
    && s'.graph.tasks.Keys == s.graph.tasks.Keys && s'.graph.links == s.graph.links
    && s'.graph.tasks[target] == (if Terminal(t.state) then t else AfterStop(t, why, terminal))
    && forall k :: k in s.graph.tasks && k != target ==> s'.graph.tasks[k] == s.graph.tasks[k]
  }

  lemma VisitTargetStep(s: Search, source: Id, target: Id, why: Str, terminal: bool)
    requires target !in s.seen && target in s.graph.tasks
    ensures var v, t := VisitTarget(s, source, target, why, terminal), s.graph.tasks[target];
      if Terminal(t.state) || CanStop(t) then v.error == None && Advanced(s, v.search, target, why, terminal) else v.error.Some?
  {
    hide AfterStop, Terminal, CanStop, Stopped, Prevent;
    StoppedMeaning(s.graph, target, why, terminal);
  }

  lemma AdvancedSound(g: Graph, id: Id, s: Search, s': Search, source: Id, target: Id, why: Str, terminal: bool)
    requires Sound(g, id, s, why, terminal) && source in s.seen && target !in s.seen
    requires target in g.tasks && (source, target) in EdgesOf(g)
    requires target in s.graph.tasks && Advanced(s, s', target, why, terminal)
    requires Terminal(s.graph.tasks[target].state) || CanStop(s.graph.tasks[target])
    ensures Sound(g, id, s', why, terminal)
  {
    hide EdgesOf, AfterStop, Terminal, CanStop;
    assert s.graph.tasks[target] == g.tasks[target];
    assert Found(g, id, s') by { ReachesStep(EdgesOf(g), id, source, target); }
    assert Kept(g, id, s', why, terminal) by { hide Found, Listed; }
    AdvancedListed(g, id, s, s', target, why, terminal);
  }

  lemma AdvancedListed(g: Graph, id: Id, s: Search, s': Search, target: Id, why: Str, terminal: bool)
    requires Sound(g, id, s, why, terminal) && target !in s.seen && target in g.tasks
    requires target in s.graph.tasks && Advanced(s, s', target, why, terminal)
    requires Terminal(s.graph.tasks[target].state) || CanStop(s.graph.tasks[target])
    ensures Listed(g, id, s')
  {
    hide AfterStop, Terminal, CanStop;
    assert s.graph.tasks[target] == g.tasks[target];
    assert target !in s.affected;
    assert id in s.seen;
  }

  lemma VisitTargetSound(g: Graph, id: Id, s: Search, source: Id, target: Id, why: Str, terminal: bool)
    requires Sound(g, id, s, why, terminal) && source in s.seen
    requires target in g.tasks ==> (source, target) in EdgesOf(g)
    ensures var v := VisitTarget(s, source, target, why, terminal);
      if v.error.Some? then Affected(g, id, target) && !CanStop(g.tasks[target])
      else Sound(g, id, v.search, why, terminal)
  {
    hide EdgesOf, AfterStop, Terminal, CanStop, Listed, Advanced;
    if target !in s.seen && target in g.tasks {
      hide VisitTarget;
      ReachesStep(EdgesOf(g), id, source, target);
      VisitTargetStep(s, source, target, why, terminal);
      var v := VisitTarget(s, source, target, why, terminal);
      if v.error == None { AdvancedSound(g, id, s, v.search, source, target, why, terminal); }
    }
  }

  ghost predicate Grows(s: Search, s': Search) {
    && s.seen <= s'.seen && (forall t :: t in s.queue ==> t in s'.queue)
    && forall t :: t in s'.seen ==> t in s.seen || t in s'.queue
  }

  lemma VisitTargetGrows(s: Search, source: Id, target: Id, why: Str, terminal: bool)
    ensures var v := VisitTarget(s, source, target, why, terminal);
      v.error == None ==> Grows(s, v.search) && (target in v.search.seen || target !in s.graph.tasks)
  {
    hide Stopped, Prevent, Terminal;
  }

  // ------------------------------------------------------------ all targets of one task

  lemma {:induction false} VisitTargetsSound(g: Graph, id: Id, s: Search, source: Id, targets: seq<Id>, why: Str, terminal: bool)
    requires Sound(g, id, s, why, terminal) && source in s.seen
    requires forall t :: t in targets && t in g.tasks ==> (source, t) in EdgesOf(g)
    requires Covers(g, s, source, set t | t in targets)
    ensures var v := VisitTargets(s, source, targets, why, terminal);
      if v.error.Some? then HasCulprit(g, id)
      else Sound(g, id, v.search, why, terminal) && Covers(g, v.search, source, {})
    decreases |targets|
  {
    hide EdgesOf, VisitTarget, Sound, CanStop, Affected;
    if targets == [] {
      assert (set t | t in targets) == {};
    } else {
      var v := VisitTarget(s, source, targets[0], why, terminal);
      VisitTargetSound(g, id, s, source, targets[0], why, terminal);
      VisitTargetGrows(s, source, targets[0], why, terminal);
      if v.error == None {
        SameTasks(g, id, s, why, terminal);
        CoversMore(g, s, v.search, source, targets);
        VisitTargetsSound(g, id, v.search, source, targets[1..], why, terminal);
      }
    }
  }

  lemma SameTasks(g: Graph, id: Id, s: Search, why: Str, terminal: bool)
    requires Sound(g, id, s, why, terminal)
    ensures s.graph.tasks.Keys == g.tasks.Keys
  {}

  lemma CoversMore(g: Graph, s: Search, s': Search, source: Id, targets: seq<Id>)
    requires targets != [] && Covers(g, s, source, set t | t in targets)
    requires Grows(s, s') && (targets[0] in s'.seen || targets[0] !in g.tasks)
    ensures Covers(g, s', source, set t | t in targets[1..])
  {
    forall x, y | x in s'.seen && (x, y) in EdgesOf(g)
      ensures x in s'.queue || y in s'.seen || (x == source && y in targets[1..])
    {
      EdgeMeaning(g, x, y);
      assert targets == [targets[0]] + targets[1..];
    }
  }

  /** Some unfinished task downstream can neither stay where it is nor move to BLOCKED. */
  ghost predicate HasCulprit(g: Graph, id: Id) { exists t :: Affected(g, id, t) && !CanStop(g.tasks[t]) }

  // ------------------------------------------------------------ the whole search

  lemma {:induction false} SpreadSound(g: Graph, id: Id, s: Search, why: Str, terminal: bool)
    requires Sound(g, id, s, why, terminal)
    requires forall x, y :: x in s.seen && (x, y) in EdgesOf(g) ==> x in s.queue || y in s.seen
    ensures var v := Spread(s, why, terminal);
      if v.error.Some? then HasCulprit(g, id)
      else Sound(g, id, v.search, why, terminal) && Exhausted(g, v.search)
    decreases Unseen(s), |s.queue|
  {
    hide EdgesOf, VisitTargets, TargetsOf, HasCulprit, CanStop, Sorted, Touched;
    if s.queue != [] {
      var source, rest := s.queue[0], s.(queue := s.queue[1..]);
      var targets := Sorted(TargetsOf(s.graph, source));
      AfterPop(g, id, s, why, terminal);
      VisitTargetsShrinks(rest, source, targets, why, terminal);
      VisitTargetsSound(g, id, rest, source, targets, why, terminal);
      var v := VisitTargets(rest, source, targets, why, terminal);
      if v.error == None {
        SpreadSound(g, id, v.search, why, terminal);
      }
    }
  }

  ghost predicate Exhausted(g: Graph, s: Search) { forall x, y :: x in s.seen && (x, y) in EdgesOf(g) ==> y in s.seen }

  lemma AfterPop(g: Graph, id: Id, s: Search, why: Str, terminal: bool)
    requires Sound(g, id, s, why, terminal) && s.queue != []
    requires forall x, y :: x in s.seen && (x, y) in EdgesOf(g) ==> x in s.queue || y in s.seen
    ensures var source, rest := s.queue[0], s.(queue := s.queue[1..]);
      var targets := Sorted(TargetsOf(s.graph, source));
      && Sound(g, id, rest, why, terminal) && source in rest.seen
      && (forall t :: t in targets && t in g.tasks ==> (source, t) in EdgesOf(g))
      && Covers(g, rest, source, set t | t in targets)
  {
    hide EdgesOf, TargetsOf, Sorted, CanStop, Touched;
    var source := s.queue[0];
    DependenciesKept(g, id, s, why, terminal);
    SameEdges(g, s.graph);
    assert s.queue == [source] + s.queue[1..];
    forall t ensures (source, t) in EdgesOf(g) <==> t in TargetsOf(s.graph, source) && t in g.tasks { EdgeMeaning(g, source, t); }
  }

  lemma DependenciesKept(g: Graph, id: Id, s: Search, why: Str, terminal: bool)
    requires Kept(g, id, s, why, terminal)
    ensures forall t :: t in g.tasks ==> s.graph.tasks[t].dependencies == g.tasks[t].dependencies
  {}

  // ------------------------------------------------------------ the result

  /** Exactly the affected tasks are listed, each once, and stopped; nothing else changes. */
  ghost predicate Stops(g: Graph, h: Graph, id: Id, affected: seq<Id>, why: Str, terminal: bool) {
    && (forall t :: t in affected <==> Affected(g, id, t))
    && (forall i, j :: 0 <= i < j < |affected| ==> affected[i] != affected[j])
    && h.links == g.links && h.tasks.Keys == g.tasks.Keys
    && forall t :: t in g.tasks ==> h.tasks[t] == if Affected(g, id, t) then AfterStop(g.tasks[t], why, terminal) else g.tasks[t]
  }

  lemma {:induction false} SeenReachesAll(g: Graph, s: Search, id: Id, p: seq<Id>)
    requires Exhausted(g, s) && id in s.seen && IsWalk(EdgesOf(g), p) && p[0] == id
    ensures p[|p| - 1] in s.seen
  {
    hide EdgesOf;
    if |p| > 1 {
      var q := p[..|p| - 1];
      SeenReachesAll(g, s, id, q);
      assert (p[|p| - 2], p[|p| - 1]) in EdgesOf(g);
    }
  }

  lemma SeenIsDownstream(g: Graph, id: Id, s: Search, t: Id)
    requires Found(g, id, s) && Exhausted(g, s)
    ensures t in s.seen && t != id <==> Downstream(g, id, t)
  {
    hide EdgesOf;
    if Downstream(g, id, t) {
      var p :| IsWalkBetween(EdgesOf(g), p, id, t);
      SeenReachesAll(g, s, id, p);
    }
  }

  /** The search raises exactly when some unfinished task downstream cannot be stopped;
      otherwise it stops all of them. */
  lemma PropagationMeaning(g: Graph, id: Id, why: Str, terminal: bool)
    ensures PropagateFailure(g, id, why, terminal).result.Err? <==> HasCulprit(g, id)
    ensures var o := PropagateFailure(g, id, why, terminal);
      o.result.Ok? ==> Stops(g, o.graph, id, o.result.value, why, terminal)
  {
    hide EdgesOf, Spread, CanStop, Downstream, Terminal;
    var s := Search(g, [id], {id}, []);
    ReachesSelf(EdgesOf(g), id);
    SpreadSound(g, id, s, why, terminal);
    var v := Spread(s, why, terminal);
    if v.error == None {
      forall t ensures t in v.search.seen && t != id <==> Downstream(g, id, t) { SeenIsDownstream(g, id, v.search, t); }
      DownstreamIsTask(g, id);
    }
  }

  lemma DownstreamIsTask(g: Graph, id: Id)
    ensures forall t :: Downstream(g, id, t) ==> t in g.tasks
  {}
}

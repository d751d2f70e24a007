/** Merging approved periods that overlap or touch into the one stretch of time
    around the assessment instant. */
module ApprovalMerge {
  import opened Wrappers
  import opened Periods
  import opened Digraph

  predicate NonEmpty(v: Interval) { v.hi.Some? ==> v.lo < v.hi.value }

  /** Neither interval ends before the other starts; sharing an endpoint is enough. */
  predicate Touch(a: Interval, b: Interval) {
    (b.hi.Some? ==> a.lo <= b.hi.value) && (a.hi.Some? ==> b.lo <= a.hi.value)
  }

  // ------------------------------------------------------------ the hull of a list

  function Start(c: seq<Interval>): (s: int)
    requires c != []
    ensures forall v :: v in c ==> s <= v.lo
    ensures exists v :: v in c && v.lo == s
  {
    if |c| == 1 then c[0].lo
    else
      var rest := Start(c[1..]);
      assert c == [c[0]] + c[1..];
      if c[0].lo < rest then c[0].lo else rest
  }

  function Stop(c: seq<Interval>): (e: Option<int>)
    requires c != []
    ensures e.Some? ==> forall v :: v in c ==> v.hi.Some? && v.hi.value <= e.value
    ensures exists v :: v in c && v.hi == e
  {
    if |c| == 1 then c[0].hi
    else
      var rest := Stop(c[1..]);
      assert c == [c[0]] + c[1..];
      if c[0].hi == None || rest == None then None else if c[0].hi.value > rest.value then c[0].hi else rest
  }

  function Hull(c: seq<Interval>): Interval
    requires c != []
  {
    Interval(Start(c), Stop(c))
  }

  lemma HasStart(c: seq<Interval>) returns (v: Interval)
    requires c != []
    ensures v in c && v.lo == Start(c)
  {
    v := c[0];
    if |c| > 1 && c[0].lo >= Start(c[1..]) { v := HasStart(c[1..]); }
  }

  lemma HasStop(c: seq<Interval>) returns (v: Interval)
    requires c != []
    ensures v in c && v.hi == Stop(c)
  {
    v := c[0];
    if |c| > 1 && c[0].hi != Stop(c) { v := HasStop(c[1..]); }
  }

  /** No gaps: every instant of the hull lies in a member. */
  ghost predicate Contiguous(c: seq<Interval>)
    requires c != []
  {
    forall x :: Within(Hull(c), x) ==> Reached(c, x)
  }

  ghost predicate AllNonEmpty(c: seq<Interval>) { forall v :: v in c ==> NonEmpty(v) }

  lemma MemberWithinHull(c: seq<Interval>, v: Interval, x: int)
    requires v in c && Within(v, x)
    ensures Within(Hull(c), x)
  {}

  /** Intervals with a common instant have no gap between them. */
  lemma CommonInstantContiguous(c: seq<Interval>, t: int)
    requires c != [] && forall v :: v in c ==> Within(v, t)
    ensures Contiguous(c) && Within(Hull(c), t)
  {
    hide Start, Stop;
    var first := HasStart(c);
    var last := HasStop(c);
    forall x | Within(Hull(c), x) ensures Reached(c, x) {
      assert Within(if x <= t then first else last, x);
    }
  }

  /** An interval that touches a gapless hull touches a member. */
  lemma TouchesMember(c: seq<Interval>, v: Interval)
    requires c != [] && Contiguous(c) && AllNonEmpty(c) && NonEmpty(v) && Touch(v, Hull(c))
    ensures exists u :: u in c && Touch(u, v)
  {
    hide Start, Stop;
    var first := HasStart(c);
    var last := HasStop(c);
    if v.lo < Start(c) {
      assert Touch(first, v);
    } else if Within(Hull(c), v.lo) {
      var u :| u in c && Within(u, v.lo);
      assert Touch(u, v);
    } else {
      assert Touch(last, v);
    }
  }

  lemma TouchesHull(c: seq<Interval>, u: Interval, v: Interval)
    requires u in c && Touch(u, v)
    ensures Touch(v, Hull(c))
  {}

  /** Adding an interval that touches the hull leaves no gap. */
  lemma AddTouching(c: seq<Interval>, v: Interval)
    requires c != [] && Contiguous(c) && Touch(v, Hull(c))
    ensures Contiguous(c + [v])
    ensures forall u :: Touch(u, Hull(c)) ==> Touch(u, Hull(c + [v]))
  {
    var d := c + [v];
    HullOfMore(c, v);
    forall x | Within(Hull(d), x) ensures Reached(d, x) {
      assert Within(Hull(c), x) || Within(v, x);
      ReachedMore(c, v, x);
    }
  }

  lemma HullOfMore(c: seq<Interval>, v: Interval)
    requires c != []
    ensures Start(c + [v]) == (if v.lo < Start(c) then v.lo else Start(c))
    ensures Stop(c + [v]) == if v.hi == None || Stop(c) == None then None else if v.hi.value > Stop(c).value then v.hi else Stop(c)
  {
    hide Start, Stop;
    var d := c + [v];
    assert v in d && forall u :: u in d <==> u in c || u == v;
    var first := HasStart(c);
    var last := HasStop(c);
    var dFirst := HasStart(d);
    var dLast := HasStop(d);
    assert first in d && last in d;
  }

  lemma {:induction false} AddAllTouching(c: seq<Interval>, more: seq<Interval>)
    requires c != [] && Contiguous(c) && forall v :: v in more ==> Touch(v, Hull(c))
    ensures Contiguous(c + more)
    decreases more
  {
    if more == [] {
      assert c + more == c;
    } else {
      AddTouching(c, more[0]);
      AddAllTouching(c + [more[0]], more[1..]);
      assert c + more == c + [more[0]] + more[1..];
    }
  }

  // ------------------------------------------------------------ connected intervals

  /** Pairs of touching intervals of a collection. */
  ghost function TouchEdges(all: set<Interval>): Edges<Interval> {
    set a, b | a in all && b in all && Touch(a, b) :: (a, b)
  }

  /** Linked to an interval containing t through intervals that touch. */
  ghost predicate Linked(all: set<Interval>, t: int, v: Interval) {
    v in all && exists u :: u in all && Within(u, t) && Reaches(TouchEdges(all), u, v)
  }

  function Elements(c: seq<Interval>): set<Interval> { set v | v in c }

  function Select(c: seq<Interval>, hull: Interval): (r: seq<Interval>)
    ensures forall v :: v in r <==> v in c && Touch(v, hull)
  {
    if c == [] then []
    else Select(c[..|c| - 1], hull) + (if Touch(c[|c| - 1], hull) then [c[|c| - 1]] else [])
  }

  function Without(c: seq<Interval>, gone: seq<Interval>): (r: seq<Interval>)
    ensures forall v :: v in r <==> v in c && v !in gone
    ensures |r| <= |c| && ((exists v :: v in c && v in gone) ==> |r| < |c|)
  {
    if c == [] then []
    else
      assert c == c[..|c| - 1] + [c[|c| - 1]];
      Without(c[..|c| - 1], gone) + (if c[|c| - 1] !in gone then [c[|c| - 1]] else [])
  }

  /** Linked members are closed under touching. */
  lemma TouchLinked(all: set<Interval>, t: int, u: Interval, v: Interval)
    requires Linked(all, t, u) && v in all && Touch(u, v)
    ensures Linked(all, t, v)
  {
    var w :| w in all && Within(w, t) && Reaches(TouchEdges(all), w, u);
    assert (u, v) in TouchEdges(all);
    ReachesStep(TouchEdges(all), w, u, v);
  }

  /** A set that holds every interval around t and is closed under touching holds every linked one. */
  lemma ClosedHoldsLinked(all: set<Interval>, t: int, members: set<Interval>, v: Interval)
    requires forall u :: u in all && Within(u, t) ==> u in members
    requires forall a, b :: a in members && b in all && Touch(a, b) ==> b in members
    requires Linked(all, t, v)
    ensures v in members
  {
    var u :| u in all && Within(u, t) && Reaches(TouchEdges(all), u, v);
    var p :| IsWalkBetween(TouchEdges(all), p, u, v);
    StaysInside(all, members, p, |p| - 1);
  }

  lemma {:induction false} StaysInside(all: set<Interval>, members: set<Interval>, p: seq<Interval>, k: nat)
    requires IsWalk(TouchEdges(all), p) && k < |p| && p[0] in members
    requires forall a, b :: a in members && b in all && Touch(a, b) ==> b in members
    ensures p[k] in members
  {
    if k > 0 {
      StaysInside(all, members, p, k - 1);
      assert (p[k - 1], p[k]) in TouchEdges(all);
    }
  }

  /** The members so far are linked, without gaps, and include all that contain t. */
  ghost predicate Growing(current: seq<Interval>, all: set<Interval>, t: int, component: seq<Interval>)
    requires component != []
  {
    && AllNonEmpty(component) && Contiguous(component) && Within(Hull(component), t)
    && (forall v :: v in current ==> v in component)
    && (forall v :: v in component ==> Linked(all, t, v))
  }

  lemma Begin(current: seq<Interval>, all: set<Interval>, t: int)
    requires current != [] && AllNonEmpty(current) && forall v :: v in current ==> v in all && Within(v, t)
    ensures Growing(current, all, t, current)
  {
    CommonInstantContiguous(current, t);
    forall v | v in current ensures Linked(all, t, v) { ReachesSelf(TouchEdges(all), v); }
  }

  lemma Grow(current: seq<Interval>, all: set<Interval>, t: int, component: seq<Interval>, connected: seq<Interval>)
    requires component != [] && current != [] && Growing(current, all, t, component)
    requires forall v :: v in current ==> Within(v, t)
    requires forall v :: v in connected ==> v in all && NonEmpty(v) && Touch(v, Hull(component))
    ensures Growing(current, all, t, component + connected)
  {
    AddAllTouching(component, connected);
    forall v | v in connected ensures Linked(all, t, v) {
      TouchesMember(component, v);
      var u :| u in component && Touch(u, v);
      TouchLinked(all, t, u, v);
    }
    MemberWithinHull(component + connected, current[0], t);
  }

  lemma Complete(current: seq<Interval>, all: set<Interval>, t: int, component: seq<Interval>, remaining: seq<Interval>, v: Interval)
    requires component != [] && Growing(current, all, t, component) && Select(remaining, Hull(component)) == []
    requires forall u :: u in all && u !in component ==> u in remaining
    requires forall u :: u in all && Within(u, t) ==> u in current
    requires Linked(all, t, v)
    ensures v in component
  {
    forall a, b | a in component && b in all && Touch(a, b) ensures b in component {
      TouchesHull(component, a, b);
      SelectedFrom(remaining, Hull(component), b);
    }
    ClosedHoldsLinked(all, t, Elements(component), v);
  }

  lemma SelectedFrom(c: seq<Interval>, hull: Interval, v: Interval)
    requires Select(c, hull) == [] && Touch(v, hull)
    ensures v !in c
  {
    assert v !in Select(c, hull);
  }

  /** Growing the stretch around t until nothing touches it: it ends with exactly
      the linked intervals, in any order, and their hull has no gaps. */
  method Merge(current: seq<Interval>, others: seq<Interval>, t: int) returns (component: seq<Interval>)
    requires current != [] && AllNonEmpty(current) && AllNonEmpty(others)
    requires forall v :: v in current ==> Within(v, t)
    requires forall v :: v in others ==> !Within(v, t)
    ensures component != [] && Contiguous(component) && Within(Hull(component), t)
    ensures forall v :: v in component <==> Linked(Elements(current + others), t, v)
  {
    hide Start, Stop, Linked, Contiguous, Reached, Touch;
    component := current;
    var remaining := others;
    ghost var all := Elements(current + others);
    Begin(current, all, t);
    while true
      invariant component != [] && Growing(current, all, t, component)
      invariant forall v :: v in remaining ==> v in others
      invariant forall v :: v in others && v !in component ==> v in remaining
      decreases |remaining|
    {
      var connected := Select(remaining, Hull(component));
      if connected == [] { break; }
      assert connected[0] in connected;
      Grow(current, all, t, component, connected);
      component := component + connected;
      remaining := Without(remaining, connected);
    }
    forall v | Linked(all, t, v) ensures v in component { Complete(current, all, t, component, remaining, v); }
  }

  /** The stretch does not depend on the order of the lists. */
  lemma OrderDoesNotMatter(all: set<Interval>, t: int, a: seq<Interval>, b: seq<Interval>)
    requires a != [] && b != []
    requires forall v :: v in a <==> Linked(all, t, v)
    requires forall v :: v in b <==> Linked(all, t, v)
    ensures Hull(a) == Hull(b)
  {
    hide Start, Stop, Linked;
    var first := HasStart(a);
    var last := HasStop(a);
    var first' := HasStart(b);
    var last' := HasStop(b);
    assert first in b && last in b && first' in a && last' in a;
  }
}

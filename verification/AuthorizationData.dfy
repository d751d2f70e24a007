/** Validation of plain authorization data: an explicit-stack depth-first walk
    over a heap of dictionaries and lists that may share structure or be cyclic. */
module AuthorizationData {
  import opened Wrappers
  import opened CodePoints
  import opened Digraph

  /** The identity of a dictionary or list. */
  type Ref = nat

  datatype Key = TextKey(text: Str) | OtherKey

  /** A value that is not a container of exactly type dict or list is a leaf. */
  datatype Value =
    | Container(id: Ref)
    | Null | Text(text: Str) | Flag(flag: bool) | Integer(number: int)
    | Float(value: Option<real>)
    | OtherObject

  datatype Contents = Dict(entries: seq<(Key, Value)>) | List(items: seq<Value>)

  type Heap = map<Ref, Contents>

  datatype ContextError = CyclicData | KeyNotText | UnsupportedValue

  function Children(contents: Contents): seq<Value> {
    match contents
    case Dict(entries) => seq(|entries|, i requires 0 <= i < |entries| => entries[i].1)
    case List(items) => items
  }

  predicate KeysAreText(contents: Contents) {
    contents.Dict? ==> forall i :: 0 <= i < |contents.entries| ==> contents.entries[i].0.TextKey?
  }

  predicate AllowedLeaf(v: Value) {
    v.Null? || v.Text? || v.Flag? || v.Integer? || (v.Float? && v.value.Some?)
  }

  /** No dangling references. */
  predicate Known(h: Heap, v: Value) { v.Container? ==> v.id in h }

  predicate Closed(h: Heap) {
    forall id :: id in h ==> forall i :: 0 <= i < |Children(h[id])| ==> Known(h, Children(h[id])[i])
  }

  // ------------------------------------------------ what is wrong with a value, declaratively

  /** From a container to the containers directly inside it. */
  ghost function Contains(h: Heap): Edges<Ref> {
    set a, b | a in h && b in h && Container(b) in Children(h[a]) :: (a, b)
  }

  ghost predicate BadLeaf(h: Heap, id: Ref) {
    id in h && exists v :: v in Children(h[id]) && !v.Container? && !AllowedLeaf(v)
  }

  /** The walk ends at a container with the given fault. */
  ghost predicate EndsIn(h: Heap, p: seq<Ref>, ancestors: set<Ref>, e: ContextError)
    requires |p| > 0
  {
    var last := p[|p| - 1];
    match e
    case CyclicData => last in ancestors || last in p[..|p| - 1]
    case KeyNotText => last in h && !KeysAreText(h[last])
    case UnsupportedValue => BadLeaf(h, last)
  }

  ghost predicate WalkFrom(h: Heap, id: Ref, p: seq<Ref>) { IsWalk(Contains(h), p) && p[0] == id }

  /** Some path down from the value meets the fault; a path that returns to an
      ancestor or to itself is a cycle. */
  ghost predicate Fault(h: Heap, v: Value, ancestors: set<Ref>, e: ContextError) {
    if v.Container? then exists p :: WalkFrom(h, v.id, p) && EndsIn(h, p, ancestors, e)
    else e == UnsupportedValue && !AllowedLeaf(v)
  }

  // ------------------------------------------------ the recursive reading of the walk

  /** The first error met below a value when the last child is visited first. */
  ghost function Check(h: Heap, v: Value, ancestors: set<Ref>): Option<ContextError>
    requires Closed(h) && Known(h, v)
    decreases |h.Keys - ancestors|, 0, 0
  {
    if !v.Container? then (if AllowedLeaf(v) then None else Some(UnsupportedValue))
    else if v.id in ancestors then Some(CyclicData)
    else if !KeysAreText(h[v.id]) then Some(KeyNotText)
    else
      SubsetSize(h.Keys - (ancestors + {v.id}), h.Keys - ancestors);
      assert v.id in h.Keys - ancestors;
      CheckAll(h, Children(h[v.id]), ancestors + {v.id})
  }

  ghost function CheckAll(h: Heap, vs: seq<Value>, ancestors: set<Ref>): Option<ContextError>
    requires Closed(h) && forall i :: 0 <= i < |vs| ==> Known(h, vs[i])
    decreases |h.Keys - ancestors|, 1, |vs|
  {
    if vs == [] then None
    else
      var last := Check(h, vs[|vs| - 1], ancestors);
      if last.Some? then last else CheckAll(h, vs[..|vs| - 1], ancestors)
  }

  /** A fault below a child is a fault below its container. */
  lemma FaultAbove(h: Heap, id: Ref, c: Value, ancestors: set<Ref>, e: ContextError)
    requires Closed(h) && id in h && c in Children(h[id]) && Fault(h, c, ancestors + {id}, e)
    ensures Fault(h, Container(id), ancestors, e)
  {
    if c.Container? {
      var p :| WalkFrom(h, c.id, p) && EndsIn(h, p, ancestors + {id}, e);
      var q := [id] + p;
      assert (id, c.id) in Contains(h);
      assert WalkFrom(h, id, q);
      assert q[..|q| - 1] == [id] + p[..|p| - 1];
      assert EndsIn(h, q, ancestors, e);
    } else {
      assert WalkFrom(h, id, [id]) && EndsIn(h, [id], ancestors, e);
    }
  }

  /** A fault below a container is its own, or one below a child. */
  lemma FaultBelow(h: Heap, id: Ref, ancestors: set<Ref>, e: ContextError)
    requires Closed(h) && id in h && Fault(h, Container(id), ancestors, e)
    requires id !in ancestors && KeysAreText(h[id])
    ensures exists c :: c in Children(h[id]) && Fault(h, c, ancestors + {id}, e)
  {
    var p :| WalkFrom(h, id, p) && EndsIn(h, p, ancestors, e);
    if |p| == 1 {
      assert BadLeaf(h, id);
      var c :| c in Children(h[id]) && !c.Container? && !AllowedLeaf(c);
      assert Fault(h, c, ancestors + {id}, e);
    } else {
      var q := p[1..];
      assert (p[0], p[1]) in Contains(h);
      var c := Container(p[1]);
      assert WalkFrom(h, c.id, q);
      assert p[..|p| - 1] == [id] + q[..|q| - 1];
      assert EndsIn(h, q, ancestors + {id}, e);
      assert Fault(h, c, ancestors + {id}, e);
    }
  }

  /** The recursive walk reports only faults that exist ... */
  lemma {:induction false} CheckIsSound(h: Heap, v: Value, ancestors: set<Ref>)
    requires Closed(h) && Known(h, v) && Check(h, v, ancestors).Some?
    ensures Fault(h, v, ancestors, Check(h, v, ancestors).value)
    decreases |h.Keys - ancestors|, 0, 0
  {
    if v.Container? {
      if v.id in ancestors || !KeysAreText(h[v.id]) {
        assert WalkFrom(h, v.id, [v.id]) && EndsIn(h, [v.id], ancestors, Check(h, v, ancestors).value);
      } else {
        SubsetSize(h.Keys - (ancestors + {v.id}), h.Keys - ancestors);
        assert v.id in h.Keys - ancestors;
        var c := CheckAllIsSound(h, Children(h[v.id]), ancestors + {v.id});
        FaultAbove(h, v.id, c, ancestors, Check(h, v, ancestors).value);
      }
    }
  }

  lemma {:induction false} CheckAllIsSound(h: Heap, vs: seq<Value>, ancestors: set<Ref>) returns (c: Value)
    requires Closed(h) && (forall i :: 0 <= i < |vs| ==> Known(h, vs[i])) && CheckAll(h, vs, ancestors).Some?
    ensures c in vs && Fault(h, c, ancestors, CheckAll(h, vs, ancestors).value)
    decreases |h.Keys - ancestors|, 1, |vs|
  {
    c := vs[|vs| - 1];
    if Check(h, c, ancestors).Some? {
      CheckIsSound(h, c, ancestors);
    } else {
      c := CheckAllIsSound(h, vs[..|vs| - 1], ancestors);
    }
  }

  /** ... and accepts only values without any. */
  lemma {:induction false} CheckIsComplete(h: Heap, v: Value, ancestors: set<Ref>, e: ContextError)
    requires Closed(h) && Known(h, v) && Check(h, v, ancestors) == None
    ensures !Fault(h, v, ancestors, e)
    decreases |h.Keys - ancestors|, 0, 0
  {
    if v.Container? && Fault(h, v, ancestors, e) {
      FaultBelow(h, v.id, ancestors, e);
      var c :| c in Children(h[v.id]) && Fault(h, c, ancestors + {v.id}, e);
      SubsetSize(h.Keys - (ancestors + {v.id}), h.Keys - ancestors);
      assert v.id in h.Keys - ancestors;
      CheckAllIsComplete(h, Children(h[v.id]), ancestors + {v.id}, c, e);
    }
  }

  lemma {:induction false} CheckAllIsComplete(h: Heap, vs: seq<Value>, ancestors: set<Ref>, c: Value, e: ContextError)
    requires Closed(h) && (forall i :: 0 <= i < |vs| ==> Known(h, vs[i])) && CheckAll(h, vs, ancestors) == None
    requires c in vs
    ensures !Fault(h, c, ancestors, e)
    decreases |h.Keys - ancestors|, 1, |vs|
  {
    if c == vs[|vs| - 1] {
      CheckIsComplete(h, c, ancestors, e);
    } else {
      CheckAllIsComplete(h, vs[..|vs| - 1], ancestors, c, e);
    }
  }

  // ------------------------------------------------ what acceptance means

  ghost predicate ReachableFrom(h: Heap, v: Value, id: Ref) {
    v.Container? && Reaches(Contains(h), v.id, id)
  }

  /** No cycle among the reachable containers, text keys only, allowed leaves only. */
  ghost predicate Acceptable(h: Heap, v: Value) {
    && (!v.Container? ==> AllowedLeaf(v))
    && (forall id :: ReachableFrom(h, v, id) ==> id in h && KeysAreText(h[id]) && !BadLeaf(h, id))
    && (forall c :: IsCycle(Contains(h), c) ==> !ReachableFrom(h, v, c[0]))
  }

  lemma AcceptableMeansFaultless(h: Heap, v: Value)
    requires Closed(h) && Known(h, v)
    ensures Acceptable(h, v) <==> forall e :: !Fault(h, v, {}, e)
  {
    if v.Container? {
      if e :| Fault(h, v, {}, e) { FaultIsUnacceptable(h, v, e); }
      if !Acceptable(h, v) { UnacceptableIsFault(h, v); }
    } else {
      assert Fault(h, v, {}, UnsupportedValue) <==> !AllowedLeaf(v);
    }
  }

  lemma FaultIsUnacceptable(h: Heap, v: Value, e: ContextError)
    requires Closed(h) && Known(h, v) && v.Container? && Fault(h, v, {}, e)
    ensures !Acceptable(h, v)
  {
    var p :| WalkFrom(h, v.id, p) && EndsIn(h, p, {}, e);
    var last := p[|p| - 1];
    assert IsWalkBetween(Contains(h), p, v.id, last);
    assert ReachableFrom(h, v, last);
    if e == CyclicData { ReturningIsCyclic(h, v, p); }
  }

  lemma ReturningIsCyclic(h: Heap, v: Value, p: seq<Ref>)
    requires v.Container? && WalkFrom(h, v.id, p) && p[|p| - 1] in p[..|p| - 1]
    ensures !Acceptable(h, v)
  {
    hide Contains;
    var last := p[|p| - 1];
    var k :| 0 <= k < |p| - 1 && p[k] == last;
    assert IsWalkBetween(Contains(h), p, v.id, last);
    assert IsCycle(Contains(h), p[k..]);
    assert ReachableFrom(h, v, p[k..][0]);
  }

  lemma UnacceptableIsFault(h: Heap, v: Value)
    requires Closed(h) && Known(h, v) && v.Container? && !Acceptable(h, v)
    ensures exists e :: Fault(h, v, {}, e)
  {
    if id :| ReachableFrom(h, v, id) && !(id in h && KeysAreText(h[id]) && !BadLeaf(h, id)) {
      var p :| IsWalkBetween(Contains(h), p, v.id, id);
      if |p| > 1 { assert (p[|p| - 2], p[|p| - 1]) in Contains(h); }
      assert WalkFrom(h, v.id, p);
      assert EndsIn(h, p, {}, if KeysAreText(h[id]) then UnsupportedValue else KeyNotText);
      assert Fault(h, v, {}, if KeysAreText(h[id]) then UnsupportedValue else KeyNotText);
    } else {
      var c :| IsCycle(Contains(h), c) && ReachableFrom(h, v, c[0]);
      var p :| IsWalkBetween(Contains(h), p, v.id, c[0]);
      var q := p + c[1..];
      assert WalkFrom(h, v.id, q);
      assert q[..|q| - 1][|p| - 1] == c[0];
      assert EndsIn(h, q, {}, CyclicData);
      assert Fault(h, v, {}, CyclicData);
    }
  }

  // ------------------------------------------------ the explicit stack

  datatype Entry = Enter(value: Value) | Leave(id: Ref)

  /** The containers whose leave marker is on the stack. */
  function Markers(stack: seq<Entry>): set<Ref> {
    set i | 0 <= i < |stack| && stack[i].Leave? :: stack[i].id
  }

  /** Each marker is on the stack once, and all values on it are known. */
  ghost predicate Stacked(h: Heap, stack: seq<Entry>) {
    && (forall i, j :: 0 <= i < j < |stack| && stack[i].Leave? && stack[j].Leave? ==> stack[i].id != stack[j].id)
    && (forall i :: 0 <= i < |stack| ==> if stack[i].Leave? then stack[i].id in h else Known(h, stack[i].value))
  }

  /** The first error still to be met by unwinding the stack. */
  ghost function Unwind(h: Heap, stack: seq<Entry>): Option<ContextError>
    requires Closed(h) && Stacked(h, stack)
    decreases |stack|
  {
    if stack == [] then None
    else
      var rest := stack[..|stack| - 1];
      var top := stack[|stack| - 1];
      if top.Leave? then Unwind(h, rest)
      else
        var first := Check(h, top.value, Markers(rest));
        if first.Some? then first else Unwind(h, rest)
  }

  function Entering(vs: seq<Value>): seq<Entry> { seq(|vs|, i requires 0 <= i < |vs| => Enter(vs[i])) }

  lemma MarkersPushed(stack: seq<Entry>, vs: seq<Value>)
    ensures Markers(stack + Entering(vs)) == Markers(stack)
  {
    var all := stack + Entering(vs);
    forall id ensures id in Markers(all) <==> id in Markers(stack) {
      if id in Markers(stack) {
        var i :| 0 <= i < |stack| && stack[i].Leave? && stack[i].id == id;
        assert all[i] == stack[i];
      }
      if id in Markers(all) {
        var i :| 0 <= i < |all| && all[i].Leave? && all[i].id == id;
        assert all[i] == stack[i];
      }
    }
  }

  lemma MarkersLeave(stack: seq<Entry>, id: Ref)
    ensures Markers(stack + [Leave(id)]) == Markers(stack) + {id}
  {
    var all := stack + [Leave(id)];
    assert all[|stack|] == Leave(id);
    assert forall i :: 0 <= i < |stack| ==> all[i] == stack[i];
  }

  /** Unwinding values pushed together visits them last first. */
  lemma {:induction false} UnwindPushed(h: Heap, stack: seq<Entry>, vs: seq<Value>)
    requires Closed(h) && Stacked(h, stack) && forall i :: 0 <= i < |vs| ==> Known(h, vs[i])
    ensures Stacked(h, stack + Entering(vs))
    ensures Unwind(h, stack + Entering(vs)) ==
            (var first := CheckAll(h, vs, Markers(stack)); if first.Some? then first else Unwind(h, stack))
  {
    var all := stack + Entering(vs);
    if vs == [] {
      assert all == stack;
    } else {
      var fewer := vs[..|vs| - 1];
      assert all[..|all| - 1] == stack + Entering(fewer);
      assert all[|all| - 1] == Enter(vs[|vs| - 1]);
      MarkersPushed(stack, fewer);
      UnwindPushed(h, stack, fewer);
    }
  }

  /** Replacing a container on top by its marker and children keeps the first error. */
  lemma UnwindContainer(h: Heap, rest: seq<Entry>, id: Ref)
    requires Closed(h) && Stacked(h, rest + [Enter(Container(id))]) && Stacked(h, rest)
    requires id in h && id !in Markers(rest) && KeysAreText(h[id])
    ensures Stacked(h, rest + [Leave(id)] + Entering(Children(h[id])))
    ensures Unwind(h, rest + [Leave(id)] + Entering(Children(h[id]))) == Unwind(h, rest + [Enter(Container(id))])
  {
    assert (rest + [Enter(Container(id))])[|rest|] == Enter(Container(id));
    assert (rest + [Enter(Container(id))])[..|rest|] == rest;
    var marked := rest + [Leave(id)];
    assert marked[..|rest|] == rest;
    assert Stacked(h, marked);
    MarkersLeave(rest, id);
    UnwindPushed(h, marked, Children(h[id]));
  }

  // ------------------------------------------------ termination: shared data is walked again

  /** Steps needed below a value when `depth` containers are still outside the path
      and no container has more than `width` children. */
  ghost function Cost(width: nat, depth: nat): nat {
    if depth == 0 then 1 else 2 + width * Cost(width, depth - 1)
  }

  ghost function StackCost(width: nat, size: nat, stack: seq<Entry>): nat {
    if stack == [] then 0
    else
      var rest := stack[..|stack| - 1];
      StackCost(width, size, rest) + if stack[|stack| - 1].Leave? then 1
                                     else Cost(width, if |Markers(rest)| <= size then size - |Markers(rest)| else 0)
  }

  lemma CostPositive(width: nat, depth: nat)
    ensures Cost(width, depth) >= 1
  {}

  lemma {:induction false} CostPushed(width: nat, size: nat, stack: seq<Entry>, vs: seq<Value>)
    requires |Markers(stack)| <= size
    ensures StackCost(width, size, stack + Entering(vs)) == StackCost(width, size, stack) + |vs| * Cost(width, size - |Markers(stack)|)
  {
    var all := stack + Entering(vs);
    if vs == [] {
      assert all == stack;
    } else {
      var fewer := vs[..|vs| - 1];
      assert all[..|all| - 1] == stack + Entering(fewer);
      MarkersPushed(stack, fewer);
      CostPushed(width, size, stack, fewer);
      OneMore(|vs|, Cost(width, size - |Markers(stack)|));
    }
  }

  lemma OneMore(n: nat, c: nat)
    requires n > 0
    ensures n * c == (n - 1) * c + c
  {}

  lemma CostShrinks(width: nat, size: nat, rest: seq<Entry>, id: Ref, vs: seq<Value>)
    requires |Markers(rest)| < size && id !in Markers(rest) && |vs| <= width
    ensures StackCost(width, size, rest + [Leave(id)] + Entering(vs)) < StackCost(width, size, rest + [Enter(Container(id))])
  {
    var depth := size - |Markers(rest)|;
    var marked := rest + [Leave(id)];
    assert marked[..|rest|] == rest;
    assert (rest + [Enter(Container(id))])[..|rest|] == rest;
    MarkersLeave(rest, id);
    CostPushed(width, size, marked, vs);
    var c := Cost(width, depth - 1);
    assert |vs| * c <= width * c;
  }

  lemma WidthExists(h: Heap) returns (width: nat)
    ensures forall id :: id in h ==> |Children(h[id])| <= width
  {
    if h == map[] {
      width := 0;
    } else {
      var id :| id in h;
      var w := WidthExists(h - {id});
      width := w + |Children(h[id])|;
      forall k | k in h ensures |Children(h[k])| <= width {
        if k != id { assert k in h - {id}; }
      }
    }
  }

  lemma MarkersFit(h: Heap, stack: seq<Entry>)
    requires Stacked(h, stack)
    ensures Markers(stack) <= h.Keys && |Markers(stack)| <= |h|
  {
    SubsetSize(Markers(stack), h.Keys);
  }

  lemma RoomForOneMore(h: Heap, stack: seq<Entry>, id: Ref)
    requires Stacked(h, stack) && id in h && id !in Markers(stack)
    ensures |Markers(stack)| < |h|
  {
    MarkersFit(h, stack);
    SubsetSize(Markers(stack) + {id}, h.Keys);
  }

  lemma MarkerIsNew(h: Heap, rest: seq<Entry>, id: Ref)
    requires Stacked(h, rest + [Leave(id)])
    ensures id !in Markers(rest)
  {
    var all := rest + [Leave(id)];
    assert all[|rest|] == Leave(id);
    assert forall i :: 0 <= i < |rest| && rest[i].Leave? ==> all[i] == rest[i] && rest[i].id != id;
  }

  /** Between two steps of the walk. */
  ghost predicate Walking(h: Heap, value: Value, stack: seq<Entry>, ancestors: set<Ref>)
    requires Closed(h) && Known(h, value)
  {
    Stacked(h, stack) && ancestors == Markers(stack) && Unwind(h, stack) == Check(h, value, {})
  }

  lemma StackedBelow(h: Heap, rest: seq<Entry>, top: Entry)
    requires Stacked(h, rest + [top])
    ensures Stacked(h, rest) && (top.Leave? ==> top.id in h) && (top.Enter? ==> Known(h, top.value))
  {
    var all := rest + [top];
    assert all[|rest|] == top && forall i :: 0 <= i < |rest| ==> all[i] == rest[i];
  }

  lemma UnwindTop(h: Heap, rest: seq<Entry>, top: Entry)
    requires Closed(h) && Stacked(h, rest + [top]) && Stacked(h, rest) && (top.Enter? ==> Known(h, top.value))
    ensures Unwind(h, rest + [top]) ==
            if top.Leave? then Unwind(h, rest)
            else (var first := Check(h, top.value, Markers(rest)); if first.Some? then first else Unwind(h, rest))
  {
    assert (rest + [top])[..|rest|] == rest;
  }

  lemma CostTop(width: nat, size: nat, rest: seq<Entry>, top: Entry)
    ensures StackCost(width, size, rest) < StackCost(width, size, rest + [top])
  {
    assert (rest + [top])[..|rest|] == rest;
    CostPositive(width, if |Markers(rest)| <= size then size - |Markers(rest)| else 0);
  }

  lemma PopMarker(h: Heap, value: Value, rest: seq<Entry>, id: Ref, ancestors: set<Ref>, width: nat)
    requires Closed(h) && Known(h, value) && Walking(h, value, rest + [Leave(id)], ancestors)
    ensures id in ancestors && Walking(h, value, rest, ancestors - {id})
    ensures StackCost(width, |h|, rest) < StackCost(width, |h|, rest + [Leave(id)])
  {
    StackedBelow(h, rest, Leave(id));
    UnwindTop(h, rest, Leave(id));
    CostTop(width, |h|, rest, Leave(id));
    MarkersLeave(rest, id);
    MarkerIsNew(h, rest, id);
  }

  lemma PopValue(h: Heap, value: Value, rest: seq<Entry>, item: Value, ancestors: set<Ref>, width: nat)
    requires Closed(h) && Known(h, value) && Walking(h, value, rest + [Enter(item)], ancestors)
    ensures Stacked(h, rest) && ancestors == Markers(rest) && Known(h, item)
    ensures Check(h, value, {}) == (var first := Check(h, item, ancestors); if first.Some? then first else Unwind(h, rest))
    ensures StackCost(width, |h|, rest) < StackCost(width, |h|, rest + [Enter(item)])
  {
    StackedBelow(h, rest, Enter(item));
    UnwindTop(h, rest, Enter(item));
    CostTop(width, |h|, rest, Enter(item));
    assert Entering([item]) == [Enter(item)];
    MarkersPushed(rest, [item]);
  }

  lemma OpenContainer(h: Heap, value: Value, rest: seq<Entry>, id: Ref, ancestors: set<Ref>, width: nat)
    requires Closed(h) && Known(h, value) && Walking(h, value, rest + [Enter(Container(id))], ancestors)
    requires id in h && id !in ancestors && KeysAreText(h[id]) && |Children(h[id])| <= width
    ensures Walking(h, value, rest + [Leave(id)] + Entering(Children(h[id])), ancestors + {id})
    ensures StackCost(width, |h|, rest + [Leave(id)] + Entering(Children(h[id]))) < StackCost(width, |h|, rest + [Enter(Container(id))])
  {
    PopValue(h, value, rest, Container(id), ancestors, width);
    UnwindContainer(h, rest, id);
    RoomForOneMore(h, rest, id);
    CostShrinks(width, |h|, rest, id, Children(h[id]));
    MarkersLeave(rest, id);
    MarkersPushed(rest + [Leave(id)], Children(h[id]));
  }

  /** The entry belongs to what lies inside a container, at whatever depth. */
  ghost predicate Encloses(h: Heap, id: Ref, entry: Entry) {
    match entry
    case Leave(inner) => Reaches(Contains(h), id, inner)
    case Enter(v) => exists parent :: parent in h && Reaches(Contains(h), id, parent) && v in Children(h[parent])
  }

  /** Every container with its marker on the stack encloses all that is above the marker. */
  ghost predicate Nested(h: Heap, stack: seq<Entry>) {
    forall i, j :: 0 <= i < j < |stack| && stack[i].Leave? ==> Encloses(h, stack[i].id, stack[j])
  }

  lemma NestedBelow(h: Heap, rest: seq<Entry>, top: Entry)
    requires Nested(h, rest + [top])
    ensures Nested(h, rest)
    ensures forall i :: 0 <= i < |rest| && rest[i].Leave? ==> Encloses(h, rest[i].id, top)
  {
    hide Encloses;
    var all := rest + [top];
    assert all[|rest|] == top && forall i :: 0 <= i < |rest| ==> all[i] == rest[i];
  }

  lemma ChildIsInside(h: Heap, outer: Ref, id: Ref)
    requires id in h && Encloses(h, outer, Enter(Container(id)))
    ensures Reaches(Contains(h), outer, id)
  {
    var parent :| parent in h && Reaches(Contains(h), outer, parent) && Container(id) in Children(h[parent]);
    ReachesStep(Contains(h), outer, parent, id);
  }

  /** Opening a container keeps the nesting: its children are inside it and inside all
      the containers already open. */
  lemma NestedOpened(h: Heap, rest: seq<Entry>, id: Ref)
    requires id in h && Nested(h, rest + [Enter(Container(id))])
    ensures Nested(h, rest + [Leave(id)] + Entering(Children(h[id])))
  {
    hide Encloses;
    NestedBelow(h, rest, Enter(Container(id)));
    var all := rest + [Leave(id)] + Entering(Children(h[id]));
    assert forall i :: 0 <= i < |rest| ==> all[i] == rest[i];
    forall i, j | 0 <= i < j < |all| && all[i].Leave? ensures Encloses(h, all[i].id, all[j]) {
      if j >= |rest| {
        OpenedInside(h, all[i].id, id, if j == |rest| then None else Some(Children(h[id])[j - |rest| - 1])) by {
          if i < |rest| { ChildIsInside(h, rest[i].id, id); } else { ReachesSelf(Contains(h), id); }
        }
      }
    }
  }

  lemma OpenedInside(h: Heap, outer: Ref, id: Ref, child: Option<Value>)
    requires id in h && Reaches(Contains(h), outer, id) && (child.Some? ==> child.value in Children(h[id]))
    ensures Encloses(h, outer, if child.Some? then Enter(child.value) else Leave(id))
  {}

  lemma CheckMeaning(h: Heap, v: Value)
    requires Closed(h) && Known(h, v)
    ensures Check(h, v, {}) == None <==> Acceptable(h, v)
    ensures Check(h, v, {}).Some? ==> Fault(h, v, {}, Check(h, v, {}).value)
  {
    AcceptableMeansFaultless(h, v);
    if Check(h, v, {}).Some? {
      CheckIsSound(h, v, {});
    } else {
      forall e ensures !Fault(h, v, {}, e) { CheckIsComplete(h, v, {}, e); }
    }
  }

  /** Terminates on every finite heap, shared or cyclic, and accepts exactly the
      acceptable values; otherwise it reports the first fault of the walk. */
  method ValidateContextData(h: Heap, value: Value) returns (error: Option<ContextError>)
    requires Closed(h) && Known(h, value)
    ensures error == None <==> Acceptable(h, value)
    ensures error.Some? ==> Fault(h, value, {}, error.value)
    ensures error == Check(h, value, {})
  {
    ghost var width := WidthExists(h);
    CheckMeaning(h, value);
    var ancestors: set<Ref> := {};
    var stack := [Enter(value)];
    assert stack[..0] == [] && Markers([]) == {};
    while stack != []
      invariant Walking(h, value, stack, ancestors)
      invariant Nested(h, stack)
      decreases StackCost(width, |h|, stack)
    {
      var rest, top := stack[..|stack| - 1], stack[|stack| - 1];
      assert stack == rest + [top];
      NestedBelow(h, rest, top);
      match top
      case Leave(id) =>
        PopMarker(h, value, rest, id, ancestors, width);
        ancestors, stack := ancestors - {id}, rest;
      case Enter(item) =>
        PopValue(h, value, rest, item, ancestors, width);
        if item.Container? {
          if item.id in ancestors { return Some(CyclicData); }
          if !KeysAreText(h[item.id]) { return Some(KeyNotText); }
          OpenContainer(h, value, rest, item.id, ancestors, width);
          NestedOpened(h, rest, item.id);
          ancestors, stack := ancestors + {item.id}, rest + [Leave(item.id)] + Entering(Children(h[item.id]));
        } else if AllowedLeaf(item) {
          stack := rest;
        } else {
          return Some(UnsupportedValue);
        }
    }
    error := None;
  }
}

/** Equal-level clusters: runs of neighbouring pivots, in price order, that span no
    more than the tolerance. */
module LevelClusters {
  import opened CodePoints
  import opened Swings
  import Sorting

  datatype Pivot = Pivot(index: nat, timestamp: Timestamp, confirmedAt: nat, confirmedTime: Timestamp, side: Side, price: real)

  /** By price, then by the text of the timestamp. */
  predicate NotAfter(a: Pivot, b: Pivot) { a.price < b.price || (a.price == b.price && Leq(a.timestamp.text, b.timestamp.text)) }

  lemma NotAfterIsTotal()
    ensures Sorting.IsTotalOrder(NotAfter)
  {
    forall a, b ensures NotAfter(a, b) || NotAfter(b, a) { LeqTotal(a.timestamp.text, b.timestamp.text); }
    forall a, b, c | NotAfter(a, b) && NotAfter(b, c) ensures NotAfter(a, c) {
      if a.price == b.price == c.price { LeqTrans(a.timestamp.text, b.timestamp.text, c.timestamp.text); }
    }
  }

  predicate Ascending(s: seq<Pivot>) { forall i, j :: 0 <= i < j < |s| ==> NotAfter(s[i], s[j]) }

  /** The stable sort by price and timestamp. */
  function Sorted(s: seq<Pivot>): (r: seq<Pivot>)
    ensures multiset(r) == multiset(s) && Ascending(r)
  {
    NotAfterIsTotal();
    Sorting.SortedInOrder(NotAfter, s);
    Sorting.Sorted(NotAfter, s)
  }

  function OnSide(s: seq<Pivot>, side: Side): (r: seq<Pivot>)
    ensures forall p :: p in r <==> p in s && p.side == side
  {
    if s == [] then []
    else
      var last := s[|s| - 1];
      assert s == s[..|s| - 1] + [last];
      OnSide(s[..|s| - 1], side) + (if last.side == side then [last] else [])
  }

  // ------------------------------------------------------------ runs

  /** A run of positions, the end excluded. */
  datatype Run = Run(start: nat, end: nat)

  /** Where the run from a position ends: at the first pivot beyond the tolerance. */
  function RunEnd(s: seq<Pivot>, start: nat, runner: nat, tolerance: real): (end: nat)
    requires start < runner <= |s|
    ensures runner <= end <= |s|
    ensures forall k :: runner <= k < end ==> s[k].price - s[start].price <= tolerance
    ensures end < |s| ==> s[end].price - s[start].price > tolerance
    decreases |s| - runner
  {
    if runner < |s| && s[runner].price - s[start].price <= tolerance then RunEnd(s, start, runner + 1, tolerance) else runner
  }

  /** The clusters found from a position on. */
  function RunsFrom(s: seq<Pivot>, index: nat, tolerance: real, minimum: nat): seq<Run>
    requires index <= |s|
    decreases |s| - index
  {
    if index == |s| then []
    else
      var end := RunEnd(s, index, index + 1, tolerance);
      if end - index >= minimum then [Run(index, end)] + RunsFrom(s, end, tolerance, minimum)
      else RunsFrom(s, index + 1, tolerance, minimum)
  }

  predicate InBounds(s: seq<Pivot>, runs: seq<Run>) { forall k :: 0 <= k < |runs| ==> runs[k].start <= runs[k].end <= |s| }

  function Members(s: seq<Pivot>, runs: seq<Run>): (r: seq<seq<Pivot>>)
    requires InBounds(s, runs)
    ensures |r| == |runs| && forall k :: 0 <= k < |r| ==> r[k] == s[runs[k].start..runs[k].end]
  {
    seq(|runs|, k requires 0 <= k < |runs| => s[runs[k].start..runs[k].end])
  }

  predicate Covers(r: Run, k: nat) { r.start <= k < r.end }

  predicate Covered(runs: seq<Run>, k: nat) { exists i :: 0 <= i < |runs| && Covers(runs[i], k) }

  /** A cluster: within the tolerance, large enough, and not extendable to the right. */
  predicate IsCluster(s: seq<Pivot>, r: Run, tolerance: real, minimum: nat) {
    && r.start < r.end <= |s| && r.end - r.start >= minimum
    && s[r.end - 1].price - s[r.start].price <= tolerance
    && (r.end < |s| ==> s[r.end].price - s[r.start].price > tolerance)
  }

  /** The pivot and those after it do not make up a cluster. */
  predicate TooSpread(s: seq<Pivot>, k: nat, tolerance: real, minimum: nat) {
    k + minimum > |s| || (minimum > 0 && k < |s| && s[k + minimum - 1].price - s[k].price > tolerance)
  }

  predicate Separate(runs: seq<Run>, index: nat) {
    && (forall i :: 0 <= i < |runs| ==> index <= runs[i].start)
    && forall i, j :: 0 <= i < j < |runs| ==> runs[i].end <= runs[j].start
  }

  ghost predicate AreClusters(s: seq<Pivot>, runs: seq<Run>, index: nat, tolerance: real, minimum: nat) {
    && Separate(runs, index)
    && (forall i :: 0 <= i < |runs| ==> IsCluster(s, runs[i], tolerance, minimum))
    && forall k :: index <= k < |s| && !Covered(runs, k) ==> TooSpread(s, k, tolerance, minimum)
  }

  lemma ShortRun(s: seq<Pivot>, start: nat, end: nat, tolerance: real, minimum: nat)
    requires Ascending(s) && start < end <= |s| && end - start < minimum
    requires end < |s| ==> s[end].price - s[start].price > tolerance
    ensures TooSpread(s, start, tolerance, minimum)
  {
    if start + minimum <= |s| { assert end == start + minimum - 1 || NotAfter(s[end], s[start + minimum - 1]); }
  }

  /** The clusters are disjoint, in order, maximal to the right; and what is left out
      could not have started one. */
  lemma {:induction false} RunsAreClusters(s: seq<Pivot>, index: nat, tolerance: real, minimum: nat)
    requires Ascending(s) && index <= |s| && tolerance > 0.0 && minimum >= 2
    ensures AreClusters(s, RunsFrom(s, index, tolerance, minimum), index, tolerance, minimum)
    decreases |s| - index
  {
    if index < |s| {
      var end := RunEnd(s, index, index + 1, tolerance);
      if end - index >= minimum {
        RunsAreClusters(s, end, tolerance, minimum);
        OneMoreRun(s, RunsFrom(s, end, tolerance, minimum), Run(index, end), tolerance, minimum);
      } else {
        RunsAreClusters(s, index + 1, tolerance, minimum);
        ShortRun(s, index, end, tolerance, minimum);
      }
    }
  }

  lemma OneMoreRun(s: seq<Pivot>, rest: seq<Run>, r: Run, tolerance: real, minimum: nat)
    requires AreClusters(s, rest, r.end, tolerance, minimum) && IsCluster(s, r, tolerance, minimum) && r.start < r.end
    ensures AreClusters(s, [r] + rest, r.start, tolerance, minimum)
  {
    hide TooSpread, IsCluster;
    var runs := [r] + rest;
    forall k | r.start <= k < |s| && !Covered(runs, k) ensures TooSpread(s, k, tolerance, minimum) { CoveredByMore(r, rest, k); }
  }

  lemma CoveredByMore(r: Run, rest: seq<Run>, k: nat)
    ensures Covered([r] + rest, k) <==> Covers(r, k) || Covered(rest, k)
  {
    var runs := [r] + rest;
    assert runs[0] == r;
    if Covered(rest, k) {
      var i :| 0 <= i < |rest| && Covers(rest[i], k);
      assert runs[i + 1] == rest[i];
    }
  }

  /** What a run's least and greatest price are. */
  lemma RunBounds(s: seq<Pivot>, start: nat, end: nat)
    requires Ascending(s) && start < end <= |s|
    ensures forall k :: start <= k < end ==> s[start].price <= s[k].price <= s[end - 1].price
  {
    forall k | start <= k < end ensures s[start].price <= s[k].price <= s[end - 1].price {
      assert k == start || NotAfter(s[start], s[k]);
      assert k == end - 1 || NotAfter(s[k], s[end - 1]);
    }
  }

  lemma RunsInBounds(s: seq<Pivot>, runs: seq<Run>, tolerance: real, minimum: nat)
    requires AreClusters(s, runs, 0, tolerance, minimum)
    ensures InBounds(s, runs)
  {}

  /** The clusters of one side, found by running over the sorted pivots. */
  function Clusters(candidates: seq<Pivot>, side: Side, tolerance: real, minimum: nat): seq<seq<Pivot>>
    requires tolerance > 0.0 && minimum >= 2
  {
    var s := Sorted(OnSide(candidates, side));
    RunsAreClusters(s, 0, tolerance, minimum);
    Members(s, RunsFrom(s, 0, tolerance, minimum))
  }

  method BuildClusters(candidates: seq<Pivot>, side: Side, tolerance: real, minimum: nat) returns (clusters: seq<seq<Pivot>>)
    requires tolerance > 0.0 && minimum >= 2
    ensures clusters == Clusters(candidates, side, tolerance, minimum)
  {
    hide Sorted, OnSide, AreClusters, RunEnd, RunsFrom, NotAfter;
    var s := Sorted(OnSide(candidates, side));
    RunsAreClusters(s, 0, tolerance, minimum);
    RunsInBounds(s, RunsFrom(s, 0, tolerance, minimum), tolerance, minimum);
    clusters := [];
    ghost var runs: seq<Run> := [];
    var index := 0;
    NoRuns(s, clusters, tolerance, minimum);
    while index < |s|
      invariant index <= |s| && Collected(s, runs, clusters, index, tolerance, minimum)
      decreases |s| - index
    {
      var runner := FindRun(s, index, tolerance);
      var group := s[index..runner];
      if |group| >= minimum {
        Collect(s, runs, clusters, index, runner, tolerance, minimum);
        clusters := clusters + [group];
        runs := runs + [Run(index, runner)];
        index := runner;
      } else {
        PassBy(s, runs, clusters, index, runner, tolerance, minimum);
        index := index + 1;
      }
    }
    AllCollected(s, runs, clusters, tolerance, minimum);
  }

  /** The clusters of the runs found before a position; the rest are those still to be found from it on. */
  ghost predicate Collected(s: seq<Pivot>, runs: seq<Run>, clusters: seq<seq<Pivot>>, index: nat, tolerance: real, minimum: nat) {
    && index <= |s| && InBounds(s, runs) && clusters == Members(s, runs)
    && runs + RunsFrom(s, index, tolerance, minimum) == RunsFrom(s, 0, tolerance, minimum)
  }

  lemma NoRuns(s: seq<Pivot>, clusters: seq<seq<Pivot>>, tolerance: real, minimum: nat)
    requires clusters == []
    ensures Collected(s, [], clusters, 0, tolerance, minimum)
  {
    hide RunsFrom;
  }

  lemma Collect(s: seq<Pivot>, runs: seq<Run>, clusters: seq<seq<Pivot>>, index: nat, runner: nat, tolerance: real, minimum: nat)
    requires index < runner <= |s| && runner == RunEnd(s, index, index + 1, tolerance) && runner - index >= minimum
    requires Collected(s, runs, clusters, index, tolerance, minimum)
    ensures Collected(s, runs + [Run(index, runner)], clusters + [s[index..runner]], runner, tolerance, minimum)
  {
    hide RunEnd;
    var more := runs + [Run(index, runner)];
    assert RunsFrom(s, index, tolerance, minimum) == [Run(index, runner)] + RunsFrom(s, runner, tolerance, minimum);
    assert more + RunsFrom(s, runner, tolerance, minimum) == runs + RunsFrom(s, index, tolerance, minimum);
    assert clusters + [s[index..runner]] == Members(s, more) by { hide RunsFrom; }
  }

  lemma PassBy(s: seq<Pivot>, runs: seq<Run>, clusters: seq<seq<Pivot>>, index: nat, runner: nat, tolerance: real, minimum: nat)
    requires index < runner <= |s| && runner == RunEnd(s, index, index + 1, tolerance) && runner - index < minimum
    requires Collected(s, runs, clusters, index, tolerance, minimum)
    ensures Collected(s, runs, clusters, index + 1, tolerance, minimum)
  {
    hide RunEnd, Members;
  }

  lemma AllCollected(s: seq<Pivot>, runs: seq<Run>, clusters: seq<seq<Pivot>>, tolerance: real, minimum: nat)
    requires Collected(s, runs, clusters, |s|, tolerance, minimum)
    ensures InBounds(s, RunsFrom(s, 0, tolerance, minimum)) && clusters == Members(s, RunsFrom(s, 0, tolerance, minimum))
  {
    hide Members;
    assert RunsFrom(s, |s|, tolerance, minimum) == [];
    assert runs + [] == runs;
  }

  /** Growing one group, with its least and greatest price. */
  method FindRun(s: seq<Pivot>, index: nat, tolerance: real) returns (runner: nat)
    requires index < |s| && Ascending(s)
    ensures index < runner <= |s| && runner == RunEnd(s, index, index + 1, tolerance)
  {
    var groupMin, groupMax := s[index].price, s[index].price;
    runner := index + 1;
    while runner < |s|
      invariant index < runner <= |s|
      invariant groupMin == s[index].price && groupMax == s[runner - 1].price
      invariant RunEnd(s, index, runner, tolerance) == RunEnd(s, index, index + 1, tolerance)
    {
      assert NotAfter(s[index], s[runner]) && NotAfter(s[runner - 1], s[runner]);
      var candidate := s[runner].price;
      var potentialMin := if candidate < groupMin then candidate else groupMin;
      var potentialMax := if candidate > groupMax then candidate else groupMax;
      if potentialMax - potentialMin <= tolerance {
        groupMin, groupMax, runner := potentialMin, potentialMax, runner + 1;
      } else {
        break;
      }
    }
  }

  lemma SortedMembers(candidates: seq<Pivot>, side: Side, p: Pivot)
    ensures p in Sorted(OnSide(candidates, side)) <==> p in candidates && p.side == side
  {
    hide Ascending;
    assert p in Sorted(OnSide(candidates, side)) <==> p in multiset(OnSide(candidates, side));
  }

  lemma ClusterAt(s: seq<Pivot>, runs: seq<Run>, tolerance: real, minimum: nat, c: seq<Pivot>) returns (r: Run)
    requires AreClusters(s, runs, 0, tolerance, minimum) && InBounds(s, runs) && c in Members(s, runs)
    ensures IsCluster(s, r, tolerance, minimum) && r.start <= r.end <= |s| && c == s[r.start..r.end]
  {
    var k :| 0 <= k < |runs| && c == Members(s, runs)[k];
    r := runs[k];
  }

  lemma RunSpan(s: seq<Pivot>, r: Run, tolerance: real, minimum: nat)
    requires Ascending(s) && IsCluster(s, r, tolerance, minimum)
    ensures |s[r.start..r.end]| >= minimum
    ensures forall p, q :: p in s[r.start..r.end] && q in s[r.start..r.end] ==> p.price - q.price <= tolerance
  {
    RunBounds(s, r.start, r.end);
  }

  /** Every cluster is a run of at least the minimum number of the side's pivots, whose
      prices differ by at most the tolerance. */
  lemma ClusterMeaning(candidates: seq<Pivot>, side: Side, tolerance: real, minimum: nat, c: seq<Pivot>)
    requires tolerance > 0.0 && minimum >= 2 && c in Clusters(candidates, side, tolerance, minimum)
    ensures |c| >= minimum
    ensures forall p :: p in c ==> p in candidates && p.side == side
    ensures forall p, q :: p in c && q in c ==> p.price - q.price <= tolerance
  {
    hide Sorted, OnSide, IsCluster, Ascending, RunsFrom, TooSpread, Covered;
    var s := Sorted(OnSide(candidates, side));
    RunsAreClusters(s, 0, tolerance, minimum);
    RunsInBounds(s, RunsFrom(s, 0, tolerance, minimum), tolerance, minimum);
    var r := ClusterAt(s, RunsFrom(s, 0, tolerance, minimum), tolerance, minimum, c);
    RunSpan(s, r, tolerance, minimum);
    forall p | p in c ensures p in candidates && p.side == side {
      assert p in s;
      SortedMembers(candidates, side, p);
    }
  }
}

/** The entries of a liquidity history read in prices: what their kinds, statuses and boundaries say
    of the candles and the pivots. */
module LiquidityPrices {
  import opened CodePoints
  import opened Swings
  import opened LevelClusters
  import opened LiquidityHistory
  import opened LiquidityCausality
  import Sorting

  ghost predicate AllProper(candles: seq<Candle>) { forall i :: 0 <= i < |candles| ==> Proper(candles[i]) }

  /** From the tolerance below the lowest member to the tolerance above the highest, members in
      order of their candles. */
  ghost predicate BoundaryInPrices(b: Boundary, tolerance: real) {
    && b.members != [] && b.lower <= b.upper
    && (forall p :: p in b.members ==> p.side == b.side && b.lower + tolerance <= p.price <= b.upper - tolerance)
    && (exists p :: p in b.members && p.price == b.lower + tolerance)
    && (exists p :: p in b.members && p.price == b.upper - tolerance)
    && forall i, j :: 0 <= i < j < |b.members| ==> b.members[i].index <= b.members[j].index
  }

  /** The kind of the meeting, in the prices of the entry's own candle. */
  ghost predicate KindInPrices(e: Entry) {
    && (e.kind == ClosedBeyond <==> ClosesPast(e.candle, e.boundary))
    && (e.kind == Breached <==> OnlyWickPast(e.candle, e.boundary))
    && (e.kind == Touched <==> WickInside(e.candle, e.boundary))
    && (e.wick <==> e.kind == Breached)
  }

  ghost predicate InPrices(e: Entry, candles: seq<Candle>, config: Config) {
    && e.candleIndex < |candles| && e.candle == candles[e.candleIndex]
    && BoundaryInPrices(e.boundary, config.interactionTolerance) && KindInPrices(e)
  }

  ghost predicate AllInPrices(history: seq<Entry>, candles: seq<Candle>, config: Config) {
    forall e :: e in history ==> InPrices(e, candles, config)
  }

  lemma BoundaryOfInPrices(l: Level, config: Config)
    requires l.members != [] && config.interactionTolerance >= 0.0 && forall p :: p in l.members ==> p.side == l.side
    ensures BoundaryInPrices(BoundaryOf(l, config), config.interactionTolerance)
  {
    var b := BoundaryOf(l, config);
    ByIndexRises(l.members);
    assert l.members[0] in l.members && l.members[0] in b.members;
  }

  lemma ByIndexRises(s: seq<Pivot>)
    ensures forall i, j :: 0 <= i < j < |ByIndex(s)| ==> ByIndex(s)[i].index <= ByIndex(s)[j].index
  {
    var leq := (p: Pivot, q: Pivot) => p.index <= q.index;
    Sorting.SortedInOrder(leq, s);
    assert ByIndex(s) == Sorting.Sorted(leq, s);
    assert Sorting.InOrder(leq, Sorting.Sorted(leq, s));
    forall i, j | 0 <= i < j < |ByIndex(s)| ensures ByIndex(s)[i].index <= ByIndex(s)[j].index { assert leq(ByIndex(s)[i], ByIndex(s)[j]); }
  }

  // ------------------------------------------------------------ every entry

  lemma EntryInPrices(history: seq<Entry>, candles: seq<Candle>, i: nat, l: Level, config: Config)
    requires AllInPrices(history, candles, config) && i < |candles| && Proper(candles[i]) && config.interactionTolerance >= 0.0
    requires l.members != [] && forall p :: p in l.members ==> p.side == l.side
    ensures AllInPrices(WithEntry(history, candles[i], i, BoundaryOf(l, config)), candles, config)
  {
    hide Interaction, BoundaryOf, BoundaryInPrices, RankIn, StatusOf, ClosesPast, OnlyWickPast, WickInside;
    var b := BoundaryOf(l, config);
    BoundaryOfInPrices(l, config);
    InOrder(b, config.interactionTolerance);
    if Interaction(candles[i], b).Meeting? { KindsOfInteraction(candles[i], b); }
  }

  lemma InOrder(b: Boundary, tolerance: real)
    requires BoundaryInPrices(b, tolerance)
    ensures b.lower <= b.upper
  {}

  /** The far edge is passed by the close as the meaning of a meeting says. */
  lemma KindsOfInteraction(c: Candle, b: Boundary)
    requires b.lower <= b.upper && c.low <= c.close <= c.high && Interaction(c, b).Meeting?
    ensures var m := Interaction(c, b);
      && (m.kind == ClosedBeyond <==> ClosesPast(c, b)) && (m.kind == Breached <==> OnlyWickPast(c, b))
      && (m.kind == Touched <==> WickInside(c, b)) && (m.wick <==> m.kind == Breached)
  {}

  lemma {:induction false} LevelsInPrices(history: seq<Entry>, candles: seq<Candle>, i: nat, levels: seq<Level>, config: Config)
    requires AllInPrices(history, candles, config) && i < |candles| && Proper(candles[i]) && config.interactionTolerance >= 0.0
    requires forall l :: l in levels ==> l.members != [] && forall p :: p in l.members ==> p.side == l.side
    ensures AllInPrices(WithLevels(history, candles[i], i, levels, config), candles, config)
  {
    hide WithEntry, AllInPrices, BoundaryOf, Proper;
    if levels != [] {
      var last := levels[|levels| - 1];
      assert last in levels && forall l :: l in levels[..|levels| - 1] ==> l in levels;
      LevelsInPrices(history, candles, i, levels[..|levels| - 1], config);
      EntryInPrices(WithLevels(history, candles[i], i, levels[..|levels| - 1], config), candles, i, last, config);
    }
  }

  lemma {:induction false} EntriesInPrices(candles: seq<Candle>, pivots: seq<Pivot>, config: Config, n: nat)
    requires ValidConfig(config) && n <= |candles| && AllProper(candles)
    ensures AllInPrices(History(candles, pivots, config, n), candles, config)
  {
    hide LevelsAt, WithLevels, Proper, InPrices;
    if n > 0 {
      EntriesInPrices(candles, pivots, config, n - 1);
      var levels := LevelsAt(pivots, n - 1, config);
      forall l | l in levels ensures l.members != [] && forall p :: p in l.members ==> p.side == l.side {
        LevelsAtConfirmed(pivots, n - 1, config, l);
      }
      LevelsInPrices(History(candles, pivots, config, n - 1), candles, n - 1, levels, config);
    }
  }

  // ------------------------------------------------------------ nothing is left out

  /** The candle's wick gets as far as the near edge of the level. */
  ghost predicate Meets(c: Candle, b: Boundary) { if b.side == High then c.high >= b.lower else c.low <= b.upper }

  ghost predicate Entered(history: seq<Entry>, i: nat, b: Boundary) { exists e :: e in history && e.candleIndex == i && e.boundary == b }

  lemma {:induction false} LevelsEnter(history: seq<Entry>, c: Candle, i: nat, levels: seq<Level>, config: Config, l: Level)
    requires Proper(c) && config.interactionTolerance >= 0.0 && l in levels
    requires forall k :: k in levels ==> k.members != [] && forall p :: p in k.members ==> p.side == k.side
    requires Meets(c, BoundaryOf(l, config))
    ensures Entered(WithLevels(history, c, i, levels, config), i, BoundaryOf(l, config))
  {
    hide BoundaryOf, Interaction, RankIn, Meets;
    var last, front := levels[|levels| - 1], levels[..|levels| - 1];
    assert forall k :: k in front ==> k in levels;
    var earlier := WithLevels(history, c, i, front, config);
    if l in front {
      LevelsEnter(history, c, i, front, config, l);
      StaysEntered(earlier, c, i, BoundaryOf(last, config), i, BoundaryOf(l, config));
    } else {
      assert l == last;
      MeetingIsEntered(earlier, c, i, l, config);
    }
  }

  lemma MeetingIsEntered(history: seq<Entry>, c: Candle, i: nat, l: Level, config: Config)
    requires Proper(c) && config.interactionTolerance >= 0.0 && l.members != [] && forall p :: p in l.members ==> p.side == l.side
    requires Meets(c, BoundaryOf(l, config))
    ensures Entered(WithEntry(history, c, i, BoundaryOf(l, config)), i, BoundaryOf(l, config))
  {
    hide BoundaryOf, Interaction, RankIn, BoundaryInPrices;
    var b := BoundaryOf(l, config);
    BoundaryOfInPrices(l, config);
    InOrder(b, config.interactionTolerance);
    InteractionMeaning(c, b);
    var more := WithEntry(history, c, i, b);
    assert more[|more| - 1] in more;
  }

  lemma StaysEntered(history: seq<Entry>, c: Candle, i: nat, with: Boundary, j: nat, b: Boundary)
    requires Entered(history, j, b)
    ensures Entered(WithEntry(history, c, i, with), j, b)
  {
    hide Interaction, RankIn;
    var e :| e in history && e.candleIndex == j && e.boundary == b;
    assert e in WithEntry(history, c, i, with);
  }

  lemma {:induction false} LevelsKeepEntered(history: seq<Entry>, c: Candle, i: nat, levels: seq<Level>, config: Config, j: nat, b: Boundary)
    requires Entered(history, j, b) && forall l :: l in levels ==> l.members != []
    ensures Entered(WithLevels(history, c, i, levels, config), j, b)
  {
    hide WithEntry, Entered, BoundaryOf;
    if levels != [] {
      var last, front := levels[|levels| - 1], levels[..|levels| - 1];
      assert forall l :: l in front ==> l in levels;
      LevelsKeepEntered(history, c, i, front, config, j, b);
      StaysEntered(WithLevels(history, c, i, front, config), c, i, BoundaryOf(last, config), j, b);
    }
  }

  /** Every level in view of a candle that the candle meets has an entry for it. */
  lemma {:induction false} EveryMeetingIsEntered(candles: seq<Candle>, pivots: seq<Pivot>, config: Config, n: nat, i: nat, l: Level)
    requires ValidConfig(config) && i < n <= |candles| && AllProper(candles)
    requires l in LevelsAt(pivots, i, config) && Meets(candles[i], BoundaryOf(l, config))
    ensures Entered(History(candles, pivots, config, n), i, BoundaryOf(l, config))
  {
    hide LevelsAt, WithLevels, Entered, BoundaryOf, Meets;
    var levels := LevelsAt(pivots, n - 1, config);
    if i == n - 1 {
      forall k | k in levels ensures k.members != [] && forall p :: p in k.members ==> p.side == k.side { LevelsAtConfirmed(pivots, i, config, k); }
      LevelsEnter(History(candles, pivots, config, i), candles[i], i, levels, config, l);
    } else {
      EveryMeetingIsEntered(candles, pivots, config, n - 1, i, l);
      LevelsKeepEntered(History(candles, pivots, config, n - 1), candles[n - 1], n - 1, levels, config, i, BoundaryOf(l, config));
    }
  }

  lemma {:induction false} SinglesKnow(pivots: seq<Pivot>, levels: seq<Level>, p: Pivot)
    requires p in pivots
    ensures Used(levels, p) || Level(p.side, SingleSwing, [p]) in Singles(pivots, levels)
  {
    hide Used;
    assert pivots == pivots[..|pivots| - 1] + [pivots[|pivots| - 1]];
    if p in pivots[..|pivots| - 1] { SinglesKnow(pivots[..|pivots| - 1], levels, p); }
  }

  lemma {:induction false} SinglesAre(pivots: seq<Pivot>, levels: seq<Level>, l: Level)
    ensures l in Singles(pivots, levels) <==> exists p :: p in pivots && !Used(levels, p) && l == Level(p.side, SingleSwing, [p])
  {
    hide Used;
    if pivots != [] {
      assert pivots == pivots[..|pivots| - 1] + [pivots[|pivots| - 1]];
      SinglesAre(pivots[..|pivots| - 1], levels, l);
    }
  }

  /** Some cluster of the side, among the pivots known at the candle, has a member at the pivot's candle. */
  ghost predicate Clustered(known: seq<Pivot>, config: Config, p: Pivot)
    requires ValidConfig(config)
  {
    exists c, m :: c in Clusters(known, p.side, config.equalTolerance, config.minimumMembers) && m in c && m.index == p.index
  }

  ghost predicate AreKnown(known: seq<Pivot>, pivots: seq<Pivot>, i: nat, lookback: nat) {
    forall p :: p in known <==> p in pivots && KnownAt(p, i, lookback)
  }

  /** The levels in view of a candle are the clusters of the pivots known at it and, if asked for, the
      single pivots in no cluster. */
  lemma LevelsMeaning(pivots: seq<Pivot>, i: nat, config: Config) returns (known: seq<Pivot>)
    requires ValidConfig(config)
    ensures AreKnown(known, pivots, i, config.lookback)
    ensures forall l :: l in LevelsAt(pivots, i, config) <==>
      || (l.kind == EqualLevels && l.members in Clusters(known, l.side, config.equalTolerance, config.minimumMembers))
      || (l.kind == SingleSwing && config.includeSingles
          && exists p :: p in known && !Clustered(known, config, p) && l == Level(p.side, SingleSwing, [p]))
  {
    hide Clusters, Used, Clustered;
    known := Eligible(pivots, i, config.lookback);
    var highs := Clusters(known, High, config.equalTolerance, config.minimumMembers);
    var lows := Clusters(known, Low, config.equalTolerance, config.minimumMembers);
    var clusters := ClusterLevels(highs, High) + ClusterLevels(lows, Low);
    forall l ensures l in clusters <==> l.kind == EqualLevels && l.members in (if l.side == High then highs else lows) {
      ClusterLevelsAre(highs, High, l);
      ClusterLevelsAre(lows, Low, l);
    }
    forall p | p in known ensures Used(clusters, p) <==> Clustered(known, config, p) { UsedMeans(known, config, clusters, p); }
    forall l ensures l in Singles(known, clusters) <==> exists p :: p in known && !Used(clusters, p) && l == Level(p.side, SingleSwing, [p]) {
      SinglesAre(known, clusters, l);
    }
  }

  lemma ClusterLevelsAre(clusters: seq<seq<Pivot>>, side: Side, l: Level)
    ensures l in ClusterLevels(clusters, side) <==> l.side == side && l.kind == EqualLevels && l.members in clusters
  {
    if l.side == side && l.kind == EqualLevels && l.members in clusters {
      var k :| 0 <= k < |clusters| && clusters[k] == l.members;
      assert ClusterLevels(clusters, side)[k] == l;
    }
  }

  lemma UsedMeans(known: seq<Pivot>, config: Config, clusters: seq<Level>, p: Pivot)
    requires ValidConfig(config)
    requires forall l :: l in clusters <==> l.kind == EqualLevels && l.members in Clusters(known, l.side, config.equalTolerance, config.minimumMembers)
    ensures Used(clusters, p) <==> Clustered(known, config, p)
  {
    if Used(clusters, p) {
      var l, m :| l in clusters && m in l.members && m.side == p.side && m.index == p.index;
      ClusterMeaning(known, l.side, config.equalTolerance, config.minimumMembers, l.members);
      assert m.side == l.side;
    }
    if Clustered(known, config, p) {
      var c, m :| c in Clusters(known, p.side, config.equalTolerance, config.minimumMembers) && m in c && m.index == p.index;
      ClusterMeaning(known, p.side, config.equalTolerance, config.minimumMembers, c);
      assert Level(p.side, EqualLevels, c) in clusters && m in Level(p.side, EqualLevels, c).members;
    }
  }

  /** With single swings included, every pivot confirmed before a candle and no further back than the
      lookback belongs to a level in view of it. */
  lemma EveryPivotHasLevel(pivots: seq<Pivot>, i: nat, config: Config, p: Pivot)
    requires ValidConfig(config) && config.includeSingles
    requires p in pivots && p.index < i && p.confirmedAt < i && i - config.lookback <= p.index
    ensures exists l, m :: l in LevelsAt(pivots, i, config) && m in l.members && m.side == p.side && m.index == p.index
  {
    hide Clusters;
    var eligible := Eligible(pivots, i, config.lookback);
    assert p in eligible;
    var clusters := ClusterLevels(Clusters(eligible, High, config.equalTolerance, config.minimumMembers), High)
                    + ClusterLevels(Clusters(eligible, Low, config.equalTolerance, config.minimumMembers), Low);
    SinglesKnow(eligible, clusters, p);
    if Used(clusters, p) {
      var l, m :| l in clusters && m in l.members && m.side == p.side && m.index == p.index;
      assert l in LevelsAt(pivots, i, config);
    } else {
      assert Level(p.side, SingleSwing, [p]) in LevelsAt(pivots, i, config) && p in Level(p.side, SingleSwing, [p]).members;
    }
  }

  // ------------------------------------------------------------ statuses

  /** Up to and including the k-th entry, the boundary was met so. */
  ghost predicate MetSo(history: seq<Entry>, k: nat, b: Boundary, closed: bool)
    requires k < |history|
  {
    exists j :: 0 <= j <= k && history[j].boundary == b && if closed then ClosesPast(history[j].candle, b) else OnlyWickPast(history[j].candle, b)
  }

  /** Closed beyond once some close so far lay past the far edge; breached while only wicks did. */
  ghost predicate StatusInPrices(history: seq<Entry>, k: nat)
    requires k < |history|
  {
    var b, status := history[k].boundary, history[k].status;
    && (status == ClosedBeyondLevel <==> MetSo(history, k, b, true))
    && (status == BreachedLevel <==> !MetSo(history, k, b, true) && MetSo(history, k, b, false))
    && (status == TouchedLevel <==> !MetSo(history, k, b, true) && !MetSo(history, k, b, false))
  }

  lemma RankMeans(history: seq<Entry>, k: nat, candles: seq<Candle>, config: Config)
    requires k < |history| && AllInPrices(history, candles, config)
    ensures var b, rank := history[k].boundary, RankIn(history[..k + 1], history[k].boundary);
      && rank >= 1
      && (rank >= 3 <==> MetSo(history, k, b, true))
      && (rank >= 2 <==> MetSo(history, k, b, true) || MetSo(history, k, b, false))
  {
    hide RankIn, ClosesPast, OnlyWickPast, WickInside, BoundaryInPrices;
    var b, upTo := history[k].boundary, history[..k + 1];
    RankIsStrongest(upTo, b);
    assert upTo[k] == history[k] && history[k] in upTo;
    forall j | 0 <= j <= k ensures history[j] in upTo && InPrices(history[j], candles, config) {
      assert upTo[j] == history[j];
      assert history[j] in history;
    }
    var e :| e in upTo && e.boundary == b && Rank(e.kind) == RankIn(upTo, b);
    var j :| 0 <= j <= k && history[j] == e;
    assert InPrices(history[j], candles, config);
    assert MetSo(history, k, b, true) ==> RankIn(upTo, b) >= 3;
    assert MetSo(history, k, b, false) ==> RankIn(upTo, b) >= 2;
  }

  /** Kinds, boundaries and statuses of the whole history, in prices. */
  lemma HistoryInPrices(candles: seq<Candle>, config: Config)
    requires ValidConfig(config) && AllProper(candles)
    ensures var history := FullHistory(candles, config);
      AllInPrices(history, candles, config) && forall k :: 0 <= k < |history| ==> StatusInPrices(history, k)
  {
    hide History, AllInPrices, MetSo, Rank, RankIn, AllProper;
    var history := FullHistory(candles, config);
    EntriesInPrices(candles, Pivots(candles), config, |candles|);
    StatusesAreStrongest(candles, Pivots(candles), config, |candles|);
    forall k | 0 <= k < |history| ensures StatusInPrices(history, k) { RankMeans(history, k, candles, config); }
  }
}

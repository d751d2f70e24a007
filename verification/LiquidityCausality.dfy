/** No look-ahead: the recorded history of the first candles is the same whatever
    candles follow, and every level in it was confirmed before it was met. */
module LiquidityCausality {
  import opened Swings
  import opened LevelClusters
  import opened LiquidityHistory

  // ------------------------------------------------------------ the levels in view

  lemma {:induction false} EligibleConcat(a: seq<Pivot>, b: seq<Pivot>, i: nat, lookback: nat)
    ensures Eligible(a + b, i, lookback) == Eligible(a, i, lookback) + Eligible(b, i, lookback)
  {
    if b == [] {
      assert a + b == a;
    } else {
      assert (a + b)[..|a + b| - 1] == a + b[..|b| - 1];
      EligibleConcat(a, b[..|b| - 1], i, lookback);
    }
  }

  lemma {:induction false} PrefixPivots(candles: seq<Candle>, side: Side, n: nat, k: nat)
    requires k < n <= |candles|
    ensures PivotsBelow(candles[..n], side, k) == PivotsBelow(candles, side, k)
  {
    if k > 0 { PrefixPivots(candles, side, n, k - 1); }
  }

  /** Pivots from i - 1 on are not confirmed before i. */
  lemma {:induction false} EligibleCut(candles: seq<Candle>, side: Side, k: nat, m: nat, i: nat, lookback: nat)
    requires m <= k && i <= m + 1
    ensures Eligible(PivotsBelow(candles, side, k), i, lookback) == Eligible(PivotsBelow(candles, side, m), i, lookback)
  {
    if k > m {
      EligibleCut(candles, side, k - 1, m, i, lookback);
      if IsSwing(candles, side, k - 1) {
        EligibleConcat(PivotsBelow(candles, side, k - 1), [PivotAt(candles, side, k - 1)], i, lookback);
        NotYetConfirmed(PivotAt(candles, side, k - 1), i, lookback);
      } else {
        assert PivotsBelow(candles, side, k) == PivotsBelow(candles, side, k - 1);
      }
    }
  }

  lemma NotYetConfirmed(p: Pivot, i: nat, lookback: nat)
    requires p.confirmedAt >= i
    ensures Eligible([p], i, lookback) == []
  {
    assert [p][..0] == [];
  }

  lemma SideAgrees(candles: seq<Candle>, side: Side, n: nat, i: nat, lookback: nat)
    requires i < n <= |candles|
    ensures Eligible(PivotsBelow(candles[..n], side, n), i, lookback) == Eligible(PivotsBelow(candles, side, |candles|), i, lookback)
  {
    hide Eligible, PivotsBelow;
    EligibleCut(candles[..n], side, n, n - 1, i, lookback);
    EligibleCut(candles, side, |candles|, n - 1, i, lookback);
    PrefixPivots(candles, side, n, n - 1);
  }

  /** The levels in view of candle i are the same, whatever comes after candle n. */
  lemma SameLevels(candles: seq<Candle>, config: Config, n: nat, i: nat)
    requires ValidConfig(config) && i < n <= |candles|
    ensures LevelsAt(Pivots(candles[..n]), i, config) == LevelsAt(Pivots(candles), i, config)
  {
    hide Eligible, PivotsBelow, HistoricalViews;
    SideAgrees(candles, High, n, i, config.lookback);
    SideAgrees(candles, Low, n, i, config.lookback);
    EligibleConcat(PivotsBelow(candles[..n], High, n), PivotsBelow(candles[..n], Low, n), i, config.lookback);
    EligibleConcat(PivotsBelow(candles, High, |candles|), PivotsBelow(candles, Low, |candles|), i, config.lookback);
  }

  // ------------------------------------------------------------ the history

  lemma {:induction false} PrefixHistory(candles: seq<Candle>, config: Config, n: nat, k: nat)
    requires ValidConfig(config) && k <= n <= |candles|
    ensures History(candles[..n], Pivots(candles[..n]), config, k) == History(candles, Pivots(candles), config, k)
  {
    hide Pivots, LevelsAt, WithLevels;
    if k > 0 {
      PrefixHistory(candles, config, n, k - 1);
      SameLevels(candles, config, n, k - 1);
    }
  }

  /** The entries made at candles before the n-th. */
  function EntriesBefore(history: seq<Entry>, n: nat): seq<Entry> {
    if history == [] then []
    else
      var last := history[|history| - 1];
      EntriesBefore(history[..|history| - 1], n) + (if last.candleIndex < n then [last] else [])
  }

  ghost predicate AllBefore(history: seq<Entry>, n: nat) { forall e :: e in history ==> e.candleIndex < n }

  /** One history continues another with entries of one candle. */
  ghost predicate Continues(history: seq<Entry>, more: seq<Entry>, i: nat) {
    |history| <= |more| && more[..|history|] == history && forall k :: |history| <= k < |more| ==> more[k].candleIndex == i
  }

  lemma {:induction false} LevelsContinue(history: seq<Entry>, c: Candle, i: nat, levels: seq<Level>, config: Config)
    requires forall l :: l in levels ==> l.members != []
    ensures Continues(history, WithLevels(history, c, i, levels, config), i)
  {
    hide Interaction, BoundaryOf, RankIn;
    if levels != [] { LevelsContinue(history, c, i, levels[..|levels| - 1], config); }
  }

  lemma {:induction false} EarlierOnly(history: seq<Entry>, n: nat)
    requires AllBefore(history, n)
    ensures EntriesBefore(history, n) == history
  {
    if history != [] {
      assert history == history[..|history| - 1] + [history[|history| - 1]];
      EarlierOnly(history[..|history| - 1], n);
    }
  }

  lemma {:induction false} LaterDropped(history: seq<Entry>, more: seq<Entry>, i: nat, n: nat)
    requires Continues(history, more, i) && n <= i
    ensures EntriesBefore(more, n) == EntriesBefore(history, n)
    decreases |more|
  {
    if |more| > |history| {
      LaterDropped(history, more[..|more| - 1], i, n);
    } else {
      assert more == history;
    }
  }

  lemma {:induction false} HistoryBefore(candles: seq<Candle>, pivots: seq<Pivot>, config: Config, k: nat)
    requires ValidConfig(config) && k <= |candles|
    ensures AllBefore(History(candles, pivots, config, k), k)
  {
    hide LevelsAt, WithLevels;
    if k > 0 {
      HistoryBefore(candles, pivots, config, k - 1);
      var earlier, levels := History(candles, pivots, config, k - 1), LevelsAt(pivots, k - 1, config);
      LevelsContinue(earlier, candles[k - 1], k - 1, levels, config);
      ContinuesBefore(earlier, WithLevels(earlier, candles[k - 1], k - 1, levels, config), k - 1);
    }
  }

  lemma ContinuesBefore(history: seq<Entry>, more: seq<Entry>, i: nat)
    requires AllBefore(history, i) && Continues(history, more, i)
    ensures AllBefore(more, i + 1)
  {
    forall e | e in more ensures e.candleIndex < i + 1 {
      var k :| 0 <= k < |more| && more[k] == e;
      if k < |history| { assert more[..|history|][k] == history[k] && history[k] in history; }
    }
  }

  lemma {:induction false} HistoryCut(candles: seq<Candle>, pivots: seq<Pivot>, config: Config, n: nat, k: nat)
    requires ValidConfig(config) && n <= k <= |candles|
    ensures EntriesBefore(History(candles, pivots, config, k), n) == History(candles, pivots, config, n)
  {
    hide LevelsAt, WithLevels, EntriesBefore;
    HistoryBefore(candles, pivots, config, n);
    if k > n {
      HistoryCut(candles, pivots, config, n, k - 1);
      var earlier, levels := History(candles, pivots, config, k - 1), LevelsAt(pivots, k - 1, config);
      LevelsContinue(earlier, candles[k - 1], k - 1, levels, config);
      LaterDropped(earlier, WithLevels(earlier, candles[k - 1], k - 1, levels, config), k - 1, n);
    } else {
      EarlierOnly(History(candles, pivots, config, n), n);
    }
  }

  /** The history of a candle sequence, computed from its own pivots. */
  function FullHistory(candles: seq<Candle>, config: Config): seq<Entry>
    requires ValidConfig(config)
  {
    History(candles, Pivots(candles), config, |candles|)
  }

  /** Analysing the first n candles alone gives exactly the entries that analysing all
      of them gives for those candles: boundaries, members and statuses included. */
  lemma NoLookAhead(candles: seq<Candle>, config: Config, n: nat)
    requires ValidConfig(config) && n <= |candles|
    ensures FullHistory(candles[..n], config) == EntriesBefore(FullHistory(candles, config), n)
  {
    hide History, Pivots, EntriesBefore;
    PrefixHistory(candles, config, n, n);
    HistoryCut(candles, Pivots(candles), config, n, |candles|);
  }

  // ------------------------------------------------------------ what an entry rests on

  /** Confirmed before the candle, and no further back from it than the lookback. */
  ghost predicate KnownAt(p: Pivot, i: nat, lookback: nat) { p.confirmedAt < i && p.index < i <= p.index + lookback }

  /** Every member of the boundary was a confirmed pivot, in the lookback, when it was met. */
  ghost predicate Causal(e: Entry, pivots: seq<Pivot>, lookback: nat) {
    forall p :: p in e.boundary.members ==>
      p in pivots && KnownAt(p, e.candleIndex, lookback) && p.side == e.boundary.side
  }

  lemma {:induction false} LevelsCausal(history: seq<Entry>, c: Candle, i: nat, levels: seq<Level>, config: Config, pivots: seq<Pivot>)
    requires forall l :: l in levels ==>
      l.members != [] && forall p :: p in l.members ==> p in pivots && KnownAt(p, i, config.lookback) && p.side == l.side
    requires forall e :: e in history ==> Causal(e, pivots, config.lookback)
    ensures forall e :: e in WithLevels(history, c, i, levels, config) ==> Causal(e, pivots, config.lookback)
  {
    hide Interaction, RankIn, KnownAt;
    if levels != [] {
      var last := levels[|levels| - 1];
      assert last in levels && forall l :: l in levels[..|levels| - 1] ==> l in levels;
      LevelsCausal(history, c, i, levels[..|levels| - 1], config, pivots);
    }
  }

  lemma LevelsAtConfirmed(pivots: seq<Pivot>, i: nat, config: Config, l: Level)
    requires ValidConfig(config) && l in LevelsAt(pivots, i, config)
    ensures forall p :: p in l.members ==> p in pivots && KnownAt(p, i, config.lookback) && p.side == l.side
  {
    hide HistoricalViews;
    ViewMembers(Eligible(pivots, i, config.lookback), config, l);
  }

  lemma {:induction false} EntriesAreCausal(candles: seq<Candle>, pivots: seq<Pivot>, config: Config, n: nat)
    requires ValidConfig(config) && n <= |candles|
    ensures forall e :: e in History(candles, pivots, config, n) ==> Causal(e, pivots, config.lookback)
  {
    hide LevelsAt, WithLevels, Causal, KnownAt;
    if n > 0 {
      EntriesAreCausal(candles, pivots, config, n - 1);
      var levels := LevelsAt(pivots, n - 1, config);
      forall l | l in levels
        ensures forall p :: p in l.members ==> p in pivots && KnownAt(p, n - 1, config.lookback) && p.side == l.side
      {
        LevelsAtConfirmed(pivots, n - 1, config, l);
      }
      LevelsCausal(History(candles, pivots, config, n - 1), candles[n - 1], n - 1, levels, config, pivots);
    }
  }

  // ------------------------------------------------------------ statuses

  /** The rank is that of the strongest entry with the boundary. */
  lemma {:induction false} RankIsStrongest(history: seq<Entry>, b: Boundary)
    ensures forall e :: e in history && e.boundary == b ==> Rank(e.kind) <= RankIn(history, b)
    ensures RankIn(history, b) > 0 ==> exists e :: e in history && e.boundary == b && Rank(e.kind) == RankIn(history, b)
  {
    if history != [] {
      assert history == history[..|history| - 1] + [history[|history| - 1]];
      RankIsStrongest(history[..|history| - 1], b);
    }
  }

  /** Each entry's status is that of the strongest meeting with its boundary so far. */
  ghost predicate StatusesAgree(history: seq<Entry>) {
    forall k :: 0 <= k < |history| ==> history[k].status == StatusOf(RankIn(history[..k + 1], history[k].boundary))
  }

  lemma EntryKeepsStatuses(history: seq<Entry>, c: Candle, i: nat, b: Boundary)
    requires StatusesAgree(history)
    ensures StatusesAgree(WithEntry(history, c, i, b))
  {
    hide Interaction;
    var more := WithEntry(history, c, i, b);
    forall k | 0 <= k < |more| ensures more[k].status == StatusOf(RankIn(more[..k + 1], more[k].boundary)) {
      if k < |history| {
        assert more[..k + 1] == history[..k + 1];
      } else {
        assert more[..k + 1] == more && more[..|more| - 1] == history;
      }
    }
  }

  lemma {:induction false} LevelsKeepStatuses(history: seq<Entry>, c: Candle, i: nat, levels: seq<Level>, config: Config)
    requires (forall l :: l in levels ==> l.members != []) && StatusesAgree(history)
    ensures StatusesAgree(WithLevels(history, c, i, levels, config))
  {
    hide StatusesAgree, WithEntry, BoundaryOf;
    if levels != [] {
      LevelsKeepStatuses(history, c, i, levels[..|levels| - 1], config);
      EntryKeepsStatuses(WithLevels(history, c, i, levels[..|levels| - 1], config), c, i, BoundaryOf(levels[|levels| - 1], config));
    }
  }

  lemma {:induction false} StatusesAreStrongest(candles: seq<Candle>, pivots: seq<Pivot>, config: Config, n: nat)
    requires ValidConfig(config) && n <= |candles|
    ensures StatusesAgree(History(candles, pivots, config, n))
  {
    hide StatusesAgree, WithLevels, LevelsAt;
    if n > 0 {
      StatusesAreStrongest(candles, pivots, config, n - 1);
      LevelsKeepStatuses(History(candles, pivots, config, n - 1), candles[n - 1], n - 1, LevelsAt(pivots, n - 1, config), config);
    } else {
      EmptyAgrees();
    }
  }

  lemma EmptyAgrees()
    ensures StatusesAgree([])
  {}
}

/** Liquidity levels and how the candles met them, each candle being judged against
    the levels confirmed before it. */
module LiquidityHistory {
  import opened Swings
  import opened LevelClusters
  import Sorting

  datatype Config = Config(
    lookback: nat, equalTolerance: real, minimumMembers: nat, interactionTolerance: real, includeSingles: bool)

  predicate ValidConfig(c: Config) { c.equalTolerance > 0.0 && c.minimumMembers >= 2 && c.interactionTolerance >= 0.0 }

  // ------------------------------------------------------------ pivots

  function PivotAt(candles: seq<Candle>, side: Side, i: nat): Pivot
    requires IsSwing(candles, side, i)
  {
    Pivot(i, candles[i].timestamp, i + 1, candles[i + 1].timestamp, side, if side == High then candles[i].high else candles[i].low)
  }

  /** The pivots of one side among the first k candles. */
  function PivotsBelow(candles: seq<Candle>, side: Side, k: nat): seq<Pivot> {
    if k == 0 then []
    else PivotsBelow(candles, side, k - 1) + (if IsSwing(candles, side, k - 1) then [PivotAt(candles, side, k - 1)] else [])
  }

  function Pivots(candles: seq<Candle>): seq<Pivot> {
    PivotsBelow(candles, High, |candles|) + PivotsBelow(candles, Low, |candles|)
  }

  /** One pivot for each swing found, in the order found. */
  lemma {:induction false} PivotsOfSwings(candles: seq<Candle>, side: Side, k: nat)
    ensures |PivotsBelow(candles, side, k)| == |SwingsBelow(candles, side, k)|
    ensures forall j :: 0 <= j < |SwingsBelow(candles, side, k)| ==>
      IsSwing(candles, side, SwingsBelow(candles, side, k)[j])
      && PivotsBelow(candles, side, k)[j] == PivotAt(candles, side, SwingsBelow(candles, side, k)[j])
  {
    if k > 0 { PivotsOfSwings(candles, side, k - 1); }
  }

  method FindConfirmedPivots(candles: seq<Candle>) returns (pivots: seq<Pivot>)
    ensures pivots == Pivots(candles)
  {
    hide SwingsBelow, PivotsBelow, PivotAt, IsSwing;
    var highs, lows := FindConfirmedSwings(candles);
    SwingsMeaning(candles, High, |candles|);
    SwingsMeaning(candles, Low, |candles|);
    var a := Pinned(candles, High, highs);
    var b := Pinned(candles, Low, lows);
    PinnedAll(candles, High, a);
    PinnedAll(candles, Low, b);
    return a + b;
  }

  lemma PinnedAll(candles: seq<Candle>, side: Side, pivots: seq<Pivot>)
    requires ArePinned(candles, side, SwingsBelow(candles, side, |candles|), pivots)
    ensures pivots == PivotsBelow(candles, side, |candles|)
  {
    hide SwingsBelow, PivotsBelow, PivotAt, IsSwing;
    PivotsOfSwings(candles, side, |candles|);
  }

  ghost predicate ArePinned(candles: seq<Candle>, side: Side, swings: seq<nat>, pivots: seq<Pivot>) {
    |pivots| == |swings| && forall j :: 0 <= j < |swings| ==> IsSwing(candles, side, swings[j]) && pivots[j] == PivotAt(candles, side, swings[j])
  }

  method Pinned(candles: seq<Candle>, side: Side, swings: seq<nat>) returns (pivots: seq<Pivot>)
    requires forall i :: i in swings ==> IsSwing(candles, side, i)
    ensures ArePinned(candles, side, swings, pivots)
  {
    hide IsSwing;
    pivots := [];
    for j := 0 to |swings|
      invariant |pivots| == j
      invariant forall m :: 0 <= m < j ==> IsSwing(candles, side, swings[m]) && pivots[m] == PivotAt(candles, side, swings[m])
    {
      assert swings[j] in swings;
      var at := swings[j];
      SwingHasNext(candles, side, at);
      var price := if side == High then candles[at].high else candles[at].low;
      pivots := pivots + [Pivot(at, candles[at].timestamp, at + 1, candles[at + 1].timestamp, side, price)];
    }
  }

  lemma SwingHasNext(candles: seq<Candle>, side: Side, i: nat)
    requires IsSwing(candles, side, i)
    ensures i + 1 < |candles|
  {}

  lemma {:induction false} PivotsOnSide(candles: seq<Candle>, side: Side, k: nat, p: Pivot)
    ensures p in PivotsBelow(candles, side, k) <==> p.index < k && IsSwing(candles, side, p.index) && p == PivotAt(candles, side, p.index)
  {
    hide IsSwing;
    if k > 0 { PivotsOnSide(candles, side, k - 1, p); }
  }

  /** A pivot is a swing with its own price and time, and with the next candle as its confirmation. */
  lemma PivotMeaning(candles: seq<Candle>, p: Pivot)
    ensures p in Pivots(candles) <==>
      && IsSwing(candles, p.side, p.index) && p.confirmedAt == p.index + 1 && p.confirmedAt < |candles|
      && p.timestamp == candles[p.index].timestamp && p.confirmedTime == candles[p.confirmedAt].timestamp
      && (p.side == High ==> p.price == candles[p.index].high) && (p.side == Low ==> p.price == candles[p.index].low)
  {
    hide IsSwing, PivotsBelow;
    PivotsOnSide(candles, High, |candles|, p);
    PivotsOnSide(candles, Low, |candles|, p);
    if IsSwing(candles, p.side, p.index) { SwingHasNext(candles, p.side, p.index); }
  }

  // ------------------------------------------------------------ levels in view of a candle

  /** Confirmed before candle i, and no further back than the lookback. */
  predicate InView(p: Pivot, i: nat, lookback: nat) { i - lookback <= p.index < i && p.confirmedAt < i }

  function Eligible(pivots: seq<Pivot>, i: nat, lookback: nat): (r: seq<Pivot>)
    ensures forall p :: p in r <==> p in pivots && InView(p, i, lookback)
  {
    if pivots == [] then []
    else
      var last := pivots[|pivots| - 1];
      assert pivots == pivots[..|pivots| - 1] + [last];
      Eligible(pivots[..|pivots| - 1], i, lookback) + (if InView(last, i, lookback) then [last] else [])
  }

  datatype LevelKind = EqualLevels | SingleSwing

  datatype Level = Level(side: Side, kind: LevelKind, members: seq<Pivot>)

  function ClusterLevels(clusters: seq<seq<Pivot>>, side: Side): (r: seq<Level>)
    ensures |r| == |clusters| && forall k :: 0 <= k < |r| ==> r[k] == Level(side, EqualLevels, clusters[k])
  {
    seq(|clusters|, k requires 0 <= k < |clusters| => Level(side, EqualLevels, clusters[k]))
  }

  predicate Used(levels: seq<Level>, p: Pivot) {
    exists l, m :: l in levels && m in l.members && m.side == p.side && m.index == p.index
  }

  function Singles(pivots: seq<Pivot>, levels: seq<Level>): (r: seq<Level>)
    ensures forall l :: l in r ==> exists p :: p in pivots && l == Level(p.side, SingleSwing, [p])
  {
    if pivots == [] then []
    else
      var last := pivots[|pivots| - 1];
      assert pivots == pivots[..|pivots| - 1] + [last];
      Singles(pivots[..|pivots| - 1], levels) + (if Used(levels, last) then [] else [Level(last.side, SingleSwing, [last])])
  }

  function HistoricalViews(pivots: seq<Pivot>, config: Config): seq<Level>
    requires ValidConfig(config)
  {
    var clusters := ClusterLevels(Clusters(pivots, High, config.equalTolerance, config.minimumMembers), High)
                    + ClusterLevels(Clusters(pivots, Low, config.equalTolerance, config.minimumMembers), Low);
    clusters + (if config.includeSingles then Singles(pivots, clusters) else [])
  }

  lemma ViewMembers(pivots: seq<Pivot>, config: Config, l: Level)
    requires ValidConfig(config) && l in HistoricalViews(pivots, config)
    ensures l.members != [] && forall p :: p in l.members ==> p in pivots && p.side == l.side
  {
    hide Clusters, Singles;
    var highs := Clusters(pivots, High, config.equalTolerance, config.minimumMembers);
    var lows := Clusters(pivots, Low, config.equalTolerance, config.minimumMembers);
    if c :| c in highs && l == Level(High, EqualLevels, c) {
      ClusterMeaning(pivots, High, config.equalTolerance, config.minimumMembers, c);
    } else if c :| c in lows && l == Level(Low, EqualLevels, c) {
      ClusterMeaning(pivots, Low, config.equalTolerance, config.minimumMembers, c);
    }
  }

  // ------------------------------------------------------------ the boundary of a level

  function LeastPrice(s: seq<Pivot>): (least: real)
    requires s != []
    ensures (forall p :: p in s ==> least <= p.price) && exists p :: p in s && p.price == least
  {
    var last := s[|s| - 1];
    assert s == s[..|s| - 1] + [last];
    if |s| == 1 then last.price
    else
      var rest := LeastPrice(s[..|s| - 1]);
      if last.price < rest then last.price else rest
  }

  function GreatestPrice(s: seq<Pivot>): (greatest: real)
    requires s != []
    ensures (forall p :: p in s ==> p.price <= greatest) && exists p :: p in s && p.price == greatest
  {
    var last := s[|s| - 1];
    assert s == s[..|s| - 1] + [last];
    if |s| == 1 then last.price
    else
      var rest := GreatestPrice(s[..|s| - 1]);
      if last.price > rest then last.price else rest
  }

  function ByIndex(s: seq<Pivot>): (r: seq<Pivot>)
    ensures forall q :: q in r <==> q in s
  {
    Sorting.Sorted((p: Pivot, q: Pivot) => p.index <= q.index, s)
  }

  /** The identity of a level: a digest of this record, taken to be injective. */
  datatype Boundary = Boundary(side: Side, kind: LevelKind, lower: real, upper: real, members: seq<Pivot>)

  function BoundaryOf(l: Level, config: Config): Boundary
    requires l.members != []
  {
    Boundary(l.side, l.kind, LeastPrice(l.members) - config.interactionTolerance,
             GreatestPrice(l.members) + config.interactionTolerance, ByIndex(l.members))
  }

  // ------------------------------------------------------------ meeting a boundary

  datatype Kind = Touched | Breached | ClosedBeyond

  datatype Status = ActiveLevel | TouchedLevel | BreachedLevel | ClosedBeyondLevel

  function Rank(k: Kind): nat {
    match k
    case ClosedBeyond => 3
    case Breached => 2
    case Touched => 1
  }

  function StatusOf(rank: nat): Status {
    if rank >= 3 then ClosedBeyondLevel else if rank == 2 then BreachedLevel else if rank == 1 then TouchedLevel else ActiveLevel
  }

  datatype Meeting = NoMeeting | Meeting(kind: Kind, wick: bool)

  function Interaction(c: Candle, b: Boundary): Meeting {
    if b.side == High then
      if c.close > b.upper then Meeting(ClosedBeyond, false)
      else if c.high > b.upper then Meeting(Breached, c.close <= b.upper)
      else if b.lower <= c.high <= b.upper then Meeting(Touched, false)
      else NoMeeting
    else
      if c.close < b.lower then Meeting(ClosedBeyond, false)
      else if c.low < b.lower then Meeting(Breached, c.close >= b.lower)
      else if b.lower <= c.low <= b.upper then Meeting(Touched, false)
      else NoMeeting
  }

  /** The close lies past the far edge. */
  predicate ClosesPast(c: Candle, b: Boundary) { if b.side == High then c.close > b.upper else c.close < b.lower }

  /** The wick gets past the far edge, the close does not. */
  predicate OnlyWickPast(c: Candle, b: Boundary) {
    if b.side == High then c.high > b.upper >= c.close else c.low < b.lower <= c.close
  }

  /** The wick ends between the edges, or on one. */
  predicate WickInside(c: Candle, b: Boundary) {
    if b.side == High then b.lower <= c.high <= b.upper else b.lower <= c.low <= b.upper
  }

  /** The kind of a meeting, by where the candle's wick and close lie. A candle meets a boundary exactly
      when its wick gets as far as the near edge. */
  lemma InteractionMeaning(c: Candle, b: Boundary)
    requires b.lower <= b.upper && c.low <= c.close <= c.high
    ensures var m, high := Interaction(c, b), b.side == High;
      && (m.Meeting? <==> if high then c.high >= b.lower else c.low <= b.upper)
      && (m.Meeting? && m.kind == ClosedBeyond <==> if high then c.close > b.upper else c.close < b.lower)
      && (m.Meeting? && m.kind == Breached <==> OnlyWickPast(c, b))
      && (m.Meeting? && m.kind == Touched <==> WickInside(c, b))
      && (m.Meeting? && m.wick <==> OnlyWickPast(c, b))
  {}

  // ------------------------------------------------------------ the history

  datatype Entry = Entry(boundary: Boundary, candleIndex: nat, candle: Candle, kind: Kind, wick: bool, status: Status)

  /** The strongest meeting recorded with a boundary. */
  function RankIn(history: seq<Entry>, b: Boundary): nat {
    if history == [] then 0
    else
      var last, earlier := history[|history| - 1], RankIn(history[..|history| - 1], b);
      if last.boundary == b && Rank(last.kind) > earlier then Rank(last.kind) else earlier
  }

  function WithEntry(history: seq<Entry>, c: Candle, i: nat, b: Boundary): seq<Entry> {
    match Interaction(c, b)
    case NoMeeting => history
    case Meeting(kind, wick) =>
      var earlier := RankIn(history, b);
      history + [Entry(b, i, c, kind, wick, StatusOf(if Rank(kind) > earlier then Rank(kind) else earlier))]
  }

  function WithLevels(history: seq<Entry>, c: Candle, i: nat, levels: seq<Level>, config: Config): seq<Entry>
    requires forall l :: l in levels ==> l.members != []
  {
    if levels == [] then history
    else
      var last := levels[|levels| - 1];
      assert levels == levels[..|levels| - 1] + [last];
      WithEntry(WithLevels(history, c, i, levels[..|levels| - 1], config), c, i, BoundaryOf(last, config))
  }

  function LevelsAt(pivots: seq<Pivot>, i: nat, config: Config): (levels: seq<Level>)
    requires ValidConfig(config)
    ensures forall l :: l in levels ==> l.members != []
  {
    var eligible := Eligible(pivots, i, config.lookback);
    assert forall l :: l in HistoricalViews(eligible, config) ==> l.members != [] by {
      forall l | l in HistoricalViews(eligible, config) ensures l.members != [] { ViewMembers(eligible, config, l); }
    }
    HistoricalViews(eligible, config)
  }

  /** The entries of the first n candles. */
  function History(candles: seq<Candle>, pivots: seq<Pivot>, config: Config, n: nat): seq<Entry>
    requires ValidConfig(config) && n <= |candles|
  {
    if n == 0 then []
    else WithLevels(History(candles, pivots, config, n - 1), candles[n - 1], n - 1, LevelsAt(pivots, n - 1, config), config)
  }

  ghost predicate RanksAgree(ranks: map<Boundary, nat>, history: seq<Entry>) {
    forall b :: (if b in ranks then ranks[b] else 0) == RankIn(history, b)
  }

  lemma RanksStep(ranks: map<Boundary, nat>, history: seq<Entry>, e: Entry, rank: nat)
    requires RanksAgree(ranks, history)
    requires rank == if Rank(e.kind) > RankIn(history, e.boundary) then Rank(e.kind) else RankIn(history, e.boundary)
    ensures RanksAgree(ranks[e.boundary := rank], history + [e])
  {
    assert (history + [e])[..|history|] == history;
  }

  method BuildHistory(candles: seq<Candle>, pivots: seq<Pivot>, config: Config) returns (history: seq<Entry>)
    requires ValidConfig(config)
    ensures history == History(candles, pivots, config, |candles|)
  {
    hide LevelsAt, WithLevels, RanksAgree;
    var ranks: map<Boundary, nat> := map[];
    history := [];
    NoRanks();
    for i := 0 to |candles|
      invariant history == History(candles, pivots, config, i)
      invariant RanksAgree(ranks, history)
    {
      ranks, history := MeetLevels(ranks, history, candles[i], i, LevelsAt(pivots, i, config), config);
    }
  }

  lemma NoRanks()
    ensures RanksAgree(map[], [])
  {}

  method MeetLevels(ranks: map<Boundary, nat>, history: seq<Entry>, c: Candle, i: nat, levels: seq<Level>, config: Config)
    returns (ranks': map<Boundary, nat>, history': seq<Entry>)
    requires (forall l :: l in levels ==> l.members != []) && RanksAgree(ranks, history)
    ensures history' == WithLevels(history, c, i, levels, config) && RanksAgree(ranks', history')
  {
    hide RanksAgree, BoundaryOf, Interaction;
    ranks', history' := ranks, history;
    for j := 0 to |levels|
      invariant history' == WithLevels(history, c, i, levels[..j], config)
      invariant RanksAgree(ranks', history')
    {
      assert levels[..j + 1][..j] == levels[..j];
      var boundary := BoundaryOf(levels[j], config);
      var meeting := Interaction(c, boundary);
      if meeting.Meeting? {
        RankIs(ranks', history', boundary);
        var earlier := if boundary in ranks' then ranks'[boundary] else 0;
        var rank := if Rank(meeting.kind) > earlier then Rank(meeting.kind) else earlier;
        var entry := Entry(boundary, i, c, meeting.kind, meeting.wick, StatusOf(rank));
        RanksStep(ranks', history', entry, rank);
        ranks' := ranks'[boundary := rank];
        history' := history' + [entry];
      }
    }
    assert levels[..|levels|] == levels;
  }

  lemma RankIs(ranks: map<Boundary, nat>, history: seq<Entry>, b: Boundary)
    requires RanksAgree(ranks, history)
    ensures (if b in ranks then ranks[b] else 0) == RankIn(history, b)
  {}
}

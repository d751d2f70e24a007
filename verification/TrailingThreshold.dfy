/** The balance chain of closed positions and the trailing loss threshold that
    follows its high watermark, on exact amounts written as decimal text. */
module TrailingThreshold {
  import opened Wrappers
  import opened Arithmetic
  import opened DecimalNotation
  import opened Fractions
  import opened DecimalAmounts

  datatype Close = Close(balanceBefore: string, grossRealizedPnl: string, commissionDelta: string,
                         financingDelta: string, otherCostDelta: string, netBalanceDelta: string, balanceAfter: string)

  /** The exact fraction an accepted text denotes. */
  function Exact(s: string): (f: Fraction)
    requires IsAmount(s)
    ensures Reduced(f) && Terminating(f.den) && AmountOf(s) == Some(f)
  {
    RoundTrip(s, ValueOf(Split(s)), s);
    ValueOf(Split(s))
  }

  function Worth(s: string): real
    requires IsAmount(s)
  {
    Value(Exact(s))
  }

  predicate AllAmounts(c: Close) {
    && IsAmount(c.balanceBefore) && IsAmount(c.grossRealizedPnl) && IsAmount(c.commissionDelta)
    && IsAmount(c.financingDelta) && IsAmount(c.otherCostDelta) && IsAmount(c.netBalanceDelta) && IsAmount(c.balanceAfter)
  }

  /** The net change is the sum of its parts and carries the balance over. */
  ghost predicate Consistent(c: Close) {
    && AllAmounts(c)
    && Worth(c.netBalanceDelta) == Worth(c.grossRealizedPnl) + Worth(c.commissionDelta) + Worth(c.financingDelta) + Worth(c.otherCostDelta)
    && Worth(c.balanceAfter) == Worth(c.balanceBefore) + Worth(c.netBalanceDelta)
  }

  method CheckClose(c: Close) returns (ok: bool)
    ensures ok <==> Consistent(c)
  {
    hide IsAmount, Exact, Value, Reduced, Terminating, Add, Negate, Tenth, Less, AmountOf;
    if !AllAmounts(c) { return false; }
    var sum := Add(Add(Add(Exact(c.grossRealizedPnl), Exact(c.commissionDelta)), Exact(c.financingDelta)), Exact(c.otherCostDelta));
    EqualIsEqual(Exact(c.netBalanceDelta), sum);
    if Exact(c.netBalanceDelta) != sum { return false; }
    var after := Add(Exact(c.balanceBefore), Exact(c.netBalanceDelta));
    EqualIsEqual(Exact(c.balanceAfter), after);
    ok := Exact(c.balanceAfter) == after;
  }

  // ------------------------------------------------------------ reconciliation

  ghost predicate AllConsistent(closes: seq<Close>) { forall i :: 0 <= i < |closes| ==> Consistent(closes[i]) }

  /** A close as the numbers its texts denote. */
  datatype Entry = Entry(before: real, net: real, after: real)

  ghost function EntryOf(c: Close): (e: Entry)
    requires Consistent(c)
    ensures e.after == e.before + e.net
  {
    Entry(Worth(c.balanceBefore), Worth(c.netBalanceDelta), Worth(c.balanceAfter))
  }

  ghost function Entries(closes: seq<Close>): seq<Entry>
    requires AllConsistent(closes)
  {
    seq(|closes|, i requires 0 <= i < |closes| => EntryOf(closes[i]))
  }

  /** Initial capital plus the net changes of the first i closes. */
  ghost function Balance(initial: real, entries: seq<Entry>, i: nat): real
    requires i <= |entries|
  {
    if i == 0 then initial else Balance(initial, entries, i - 1) + entries[i - 1].net
  }

  /** Each of the first `upTo` closes starts from the balance so far. */
  ghost predicate Chained(initial: real, entries: seq<Entry>, upTo: nat)
    requires upTo <= |entries|
  {
    forall i :: 0 <= i < upTo ==> entries[i].before == Balance(initial, entries, i)
  }

  datatype Finding = BalanceChainUnreconciled(event: nat) | SnapshotUnreconciled

  lemma NothingClosed(start: real, entries: seq<Entry>)
    ensures Chained(start, entries, 0) && Balance(start, entries, 0) == start
  {}

  lemma OneMoreClose(start: real, entries: seq<Entry>, i: nat)
    requires i < |entries| && Chained(start, entries, i)
    ensures Balance(start, entries, i + 1) == Balance(start, entries, i) + entries[i].net
    ensures Chained(start, entries, i + 1) <==> entries[i].before == Balance(start, entries, i)
  {}

  /** A break anywhere breaks the whole chain. */
  lemma BreakRemains(start: real, entries: seq<Entry>, i: nat)
    requires i < |entries| && !Chained(start, entries, i + 1)
    ensures !Chained(start, entries, |entries|)
  {}

  /** Accepts exactly the histories whose every balance, and the snapshot, equals
      initial capital plus the net changes so far; otherwise names the first break. */
  method Reconcile(initial: string, closes: seq<Close>, snapshot: string) returns (finding: Option<Finding>)
    requires IsAmount(initial) && IsAmount(snapshot) && AllConsistent(closes)
    ensures finding == None <==>
      Chained(Worth(initial), Entries(closes), |closes|) && Worth(snapshot) == Balance(Worth(initial), Entries(closes), |closes|)
    ensures finding.Some? && finding.value.BalanceChainUnreconciled? ==>
      var i := finding.value.event;
      && i < |closes| && Chained(Worth(initial), Entries(closes), i)
      && Worth(closes[i].balanceBefore) != Balance(Worth(initial), Entries(closes), i)
    ensures finding == Some(SnapshotUnreconciled) ==> Chained(Worth(initial), Entries(closes), |closes|)
  {
    hide IsAmount, Exact, Value, Reduced, Terminating, Add, AmountOf, Consistent, EntryOf, Chained, Balance;
    ghost var start, entries := Worth(initial), Entries(closes);
    var balance := Exact(initial);
    NothingClosed(start, entries);
    for i := 0 to |closes|
      invariant Reduced(balance) && Value(balance) == Balance(start, entries, i)
      invariant Chained(start, entries, i)
    {
      CloseHasEntry(closes[i]);
      assert entries[i] == EntryOf(closes[i]);
      OneMoreClose(start, entries, i);
      var before := Exact(closes[i].balanceBefore);
      EqualIsEqual(before, balance);
      if before != balance {
        BreakRemains(start, entries, i);
        return Some(BalanceChainUnreconciled(i));
      }
      balance := Exact(closes[i].balanceAfter);
    }
    EqualIsEqual(balance, Exact(snapshot));
    if balance != Exact(snapshot) { return Some(SnapshotUnreconciled); }
    finding := None;
  }

  lemma CloseHasEntry(c: Close)
    requires Consistent(c)
    ensures AllAmounts(c) && EntryOf(c).before == Value(Exact(c.balanceBefore)) && EntryOf(c).after == Value(Exact(c.balanceAfter))
  {}

  // ------------------------------------------------------------ the watermark

  /** The largest of the initial capital and the first i balances. */
  ghost function Highest(initial: real, entries: seq<Entry>, i: nat): real
    requires i <= |entries|
  {
    if i == 0 then initial
    else if Balance(initial, entries, i) > Highest(initial, entries, i - 1) then Balance(initial, entries, i)
    else Highest(initial, entries, i - 1)
  }

  lemma {:induction false} HighestIsMaximum(initial: real, entries: seq<Entry>, i: nat) returns (at: nat)
    requires i <= |entries|
    ensures forall k :: 0 <= k <= i ==> Balance(initial, entries, k) <= Highest(initial, entries, i)
    ensures at <= i && Balance(initial, entries, at) == Highest(initial, entries, i)
  {
    if i == 0 {
      at := 0;
    } else {
      at := HighestIsMaximum(initial, entries, i - 1);
      if Balance(initial, entries, i) > Highest(initial, entries, i - 1) { at := i; }
    }
  }

  /** The threshold never falls, and never below nine tenths of the initial capital. */
  lemma {:induction false} ThresholdNeverFalls(initial: real, entries: seq<Entry>, i: nat, j: nat)
    requires i <= j <= |entries|
    ensures Highest(initial, entries, i) - initial / 10.0 <= Highest(initial, entries, j) - initial / 10.0
    ensures Highest(initial, entries, j) - initial / 10.0 >= 0.9 * initial
  {
    if j > 0 {
      ThresholdNeverFalls(initial, entries, if i < j then i else j - 1, j - 1);
    }
  }

  datatype Step = Step(balance: string, highWatermark: string, threshold: string)

  datatype State = State(initialCapital: string, finalBalance: string, highWatermark: string, threshold: string, steps: seq<Step>)

  /** The text is an accepted amount and worth exactly the number. */
  ghost predicate Shows(text: string, worth: real) { IsAmount(text) && Worth(text) == worth }

  ghost predicate Reports(initial: real, entries: seq<Entry>, i: nat, figures: Step)
    requires i <= |entries|
  {
    && Shows(figures.balance, Balance(initial, entries, i))
    && Shows(figures.highWatermark, Highest(initial, entries, i))
    && Shows(figures.threshold, Highest(initial, entries, i) - initial / 10.0)
  }

  lemma TerminatingProduct(d: nat, e: nat, x: nat, g: nat)
    requires Terminating(d) && Terminating(e) && d * e == g * x
    ensures Terminating(x)
  {
    var j: nat :| DividesPow10(d, j);
    var k: nat :| DividesPow10(e, k);
    var p: nat :| Pow10(j) == d * p;
    var q: nat :| Pow10(k) == e * q;
    Pow10Sum(j, k);
    Rearranged(d, p, e, q, g, x);
    assert Pow10(j + k) == x * (g * (p * q));
    assert DividesPow10(x, j + k);
  }

  lemma Rearranged(d: nat, p: nat, e: nat, q: nat, g: nat, x: nat)
    requires d * e == g * x
    ensures (d * p) * (e * q) == x * (g * (p * q))
  {
    FourFactors(d, e, p, q);
    calc {
      (d * p) * (e * q);
      { MulAssoc(d, p, e * q); MulAssoc(p, e, q); MulAssoc(d, e, p * q); }
      (d * e) * (p * q);
      (g * x) * (p * q);
      { MulAssoc(g, x, p * q); MulAssoc(x, g, p * q); }
      x * (g * (p * q));
    }
  }

  /** Sums, negations and tenths of amounts are again amounts. */
  lemma AddTerminates(a: Fraction, b: Fraction)
    requires Reduced(a) && Reduced(b) && Terminating(a.den) && Terminating(b.den)
    ensures Terminating(Add(a, b).den)
  {
    MulPositive(a.den, b.den);
    var g := OfFactor(a.num * b.den + b.num * a.den, a.den * b.den);
    TerminatingProduct(a.den, b.den, Add(a, b).den, g);
  }

  lemma TenthTerminates(a: Fraction)
    requires Reduced(a) && Terminating(a.den)
    ensures Terminating(Tenth(a).den)
  {
    assert Pow10(1) == 10 * 1;
    assert DividesPow10(10, 1);
    var g := OfFactor(a.num, 10 * a.den);
    TerminatingProduct(10, a.den, Tenth(a).den, g);
  }

  /** Printing an amount that is certain to have an ending expansion. */
  method Show(f: Fraction) returns (text: string)
    requires Reduced(f) && Terminating(f.den)
    ensures Shows(text, Value(f))
  {
    var printed := Decimal(f);
    text := printed.value;
  }

  method ThresholdText(initial: Fraction, high: Fraction) returns (text: string)
    requires Reduced(initial) && Terminating(initial.den) && Reduced(high) && Terminating(high.den)
    ensures Shows(text, Value(high) - Value(initial) / 10.0)
  {
    TenthTerminates(initial);
    AddTerminates(high, Negate(Tenth(initial)));
    text := Show(Add(high, Negate(Tenth(initial))));
  }

  method Figures(capital: Fraction, balance: Fraction, high: Fraction) returns (figures: Step)
    requires Reduced(capital) && Terminating(capital.den) && Reduced(balance) && Terminating(balance.den)
    requires Reduced(high) && Terminating(high.den)
    ensures Shows(figures.balance, Value(balance)) && Shows(figures.highWatermark, Value(high))
    ensures Shows(figures.threshold, Value(high) - Value(capital) / 10.0)
  {
    var b := Show(balance);
    var h := Show(high);
    var t := ThresholdText(capital, high);
    figures := Step(b, h, t);
  }

  lemma BalanceAfter(initial: string, closes: seq<Close>, i: nat)
    requires IsAmount(initial) && AllConsistent(closes) && i < |closes| && Chained(Worth(initial), Entries(closes), |closes|)
    ensures IsAmount(closes[i].balanceAfter) && Worth(closes[i].balanceAfter) == Balance(Worth(initial), Entries(closes), i + 1)
  {
    hide IsAmount, Exact;
    assert Entries(closes)[i] == EntryOf(closes[i]);
  }

  lemma NoSteps(start: real, entries: seq<Entry>)
    ensures Balance(start, entries, 0) == start && Highest(start, entries, 0) == start
  {}

  lemma OneMoreHigh(start: real, entries: seq<Entry>, i: nat)
    requires i < |entries|
    ensures var after, high := Balance(start, entries, i + 1), Highest(start, entries, i);
      Highest(start, entries, i + 1) == if high < after then after else high
  {
    hide Balance;
  }

  lemma ReportsFigures(start: real, entries: seq<Entry>, i: nat, figures: Step)
    requires i <= |entries|
    requires Shows(figures.balance, Balance(start, entries, i)) && Shows(figures.highWatermark, Highest(start, entries, i))
    requires Shows(figures.threshold, Highest(start, entries, i) - start / 10.0)
    ensures Reports(start, entries, i, figures)
  {}

  /** The established state of a reconciled history: printing never fails, and
      every figure shows the balance, watermark and threshold it stands for. */
  method Establish(initial: string, closes: seq<Close>) returns (state: State)
    requires IsAmount(initial) && AllConsistent(closes) && Chained(Worth(initial), Entries(closes), |closes|)
    ensures Shows(state.initialCapital, Worth(initial))
    ensures Reports(Worth(initial), Entries(closes), |closes|, Step(state.finalBalance, state.highWatermark, state.threshold))
    ensures |state.steps| == |closes|
    ensures forall i :: 0 <= i < |closes| ==> Reports(Worth(initial), Entries(closes), i + 1, state.steps[i])
  {
    hide IsAmount, Exact, Value, Reduced, Terminating, AmountOf, Consistent, EntryOf, Less, Shows, Reports, Chained, Balance, Highest;
    ghost var start, entries := Worth(initial), Entries(closes);
    var capital := Exact(initial);
    NoSteps(start, entries);
    var balance, high := capital, capital;
    var steps: seq<Step> := [];
    for i := 0 to |closes|
      invariant Reduced(balance) && Terminating(balance.den) && Value(balance) == Balance(start, entries, i)
      invariant Reduced(high) && Terminating(high.den) && Value(high) == Highest(start, entries, i)
      invariant |steps| == i && forall k :: 0 <= k < i ==> Reports(start, entries, k + 1, steps[k])
    {
      CloseHasEntry(closes[i]);
      BalanceAfter(initial, closes, i);
      OneMoreHigh(start, entries, i);
      balance := Exact(closes[i].balanceAfter);
      LessIsLess(high, balance);
      high := if Less(high, balance) then balance else high;
      var figures := Figures(capital, balance, high);
      ReportsFigures(start, entries, i + 1, figures);
      steps := steps + [figures];
    }
    var first := Show(capital);
    var last := Figures(capital, balance, high);
    ReportsFigures(start, entries, |closes|, last);
    state := State(first, last.balance, last.highWatermark, last.threshold, steps);
  }

  // ------------------------------------------------------------ the whole evaluation

  datatype Refusal = InconsistentClose(event: nat) | Unreconciled(finding: Finding)

  /** Every close adds up, and the balances chain from the initial capital to the snapshot. */
  ghost predicate Reconciles(initial: string, closes: seq<Close>, snapshot: string)
    requires IsAmount(initial) && IsAmount(snapshot)
  {
    AllConsistent(closes) && Chained(Worth(initial), Entries(closes), |closes|)
    && Worth(snapshot) == Balance(Worth(initial), Entries(closes), |closes|)
  }

  /** A state is established exactly for a history that reconciles. It then prints the very texts
      it was given: the initial capital, every balance after a close, and the snapshot's balance last. */
  method Evaluate(initial: string, closes: seq<Close>, snapshot: string) returns (r: Result<State, Refusal>)
    requires IsAmount(initial) && IsAmount(snapshot)
    ensures r.Ok? <==> Reconciles(initial, closes, snapshot)
    ensures r.Ok? ==>
      && r.value.initialCapital == initial && r.value.finalBalance == snapshot && |r.value.steps| == |closes|
      && forall i :: 0 <= i < |closes| ==> r.value.steps[i].balance == closes[i].balanceAfter
    ensures r.Ok? ==> forall i :: 0 <= i < |closes| ==> Reports(Worth(initial), Entries(closes), i + 1, r.value.steps[i])
  {
    hide IsAmount, Exact, Consistent, Balance, Highest, Worth;
    for i := 0 to |closes|
      invariant AllConsistent(closes[..i])
    {
      var ok := CheckClose(closes[i]);
      if !ok { return Err(InconsistentClose(i)); }
    }
    assert closes[..|closes|] == closes;
    var finding := Reconcile(initial, closes, snapshot);
    if finding.Some? { return Err(Unreconciled(finding.value)); }
    var state := Establish(initial, closes);
    SameText(state.initialCapital, initial);
    SameText(state.finalBalance, snapshot);
    forall i | 0 <= i < |closes| ensures state.steps[i].balance == closes[i].balanceAfter {
      BalanceAfter(initial, closes, i);
      SameText(state.steps[i].balance, closes[i].balanceAfter);
    }
    r := Ok(state);
  }

  /** An amount has one accepted text. */
  lemma SameText(s: string, t: string)
    requires IsAmount(s) && IsAmount(t) && Worth(s) == Worth(t)
    ensures s == t
  {
    hide IsAmount, AmountOf, Value, Reduced, Terminating;
    EqualIsEqual(Exact(s), Exact(t));
    AmountOfIsInjective(s, t);
  }
}

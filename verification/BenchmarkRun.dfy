/** Trading the labels of a benchmark earns its realizable profit. */
module BenchmarkRun {
  import opened Wrappers
  import opened Market
  import opened Benchmark
  import opened Engine
  import opened Evaluation

  // The benchmark and the engine compute that profit with different code, from
  // turning points and from signals bar by bar.

  function EvalBars(p: Setup): (bars: seq<Bar>)
    requires p.Valid()
    ensures |bars| == p.N() && forall t: nat | t < p.N() :: bars[t] == p.EvalBar(t)
  {
    p.bars[p.start..]
  }

  /** The decider answers the label of the next bar, whatever it is shown. */
  ghost predicate SignalsLabels(p: Setup, labels: seq<int>) {
    forall visible: seq<Bar>, shown: seq<BarState> | |shown| < |labels| ::
      p.decider(visible, shown) == Answer(labels[|shown|])
  }

  ghost predicate SignalsFlatAtTheEnd(p: Setup, labels: seq<int>) {
    forall visible: seq<Bar>, shown: seq<BarState> | |shown| >= |labels| ::
      p.decider(visible, shown) == Answer(0)
  }

  function EntryOf(p: Setup, leg: Leg): int
    requires p.Valid() && leg.a + 1 < p.N()
  {
    OpeningPrice(leg.direction, p.EvalBar(leg.a + 1))
  }

  /** No bar of a leg touches the stop of a position opened at the leg's start. */
  ghost predicate StopsHold(p: Setup, legs: seq<Leg>)
    requires p.Valid()
  {
    forall k, t: nat | 0 <= k < |legs| && legs[k].a < t <= legs[k].b && t < p.N() ::
      !Touches(legs[k].direction, StopPrice(legs[k].direction, EntryOf(p, legs[k]), p.stopOffset), p.EvalBar(t))
  }

  /** The trade of a leg: from the open after its start to the open after its end. */
  function TradeOf(p: Setup, leg: Leg): SimTrade
    requires p.Valid() && leg.a < leg.b && leg.b + 1 < p.N()
  {
    ClosedTrade(leg.direction, leg.a + 1, leg.b + 1, EntryOf(p, leg), ClosingPrice(leg.direction, p.EvalBar(leg.b + 1)), Signal)
  }

  function TradesOf(p: Setup, legs: seq<Leg>): (trades: seq<SimTrade>)
    requires p.Valid() && forall k | 0 <= k < |legs| :: legs[k].a < legs[k].b && legs[k].b + 1 < p.N()
    ensures |trades| == |legs| && forall k | 0 <= k < |legs| :: trades[k] == TradeOf(p, legs[k])
  {
    seq(|legs|, k requires 0 <= k < |legs| => TradeOf(p, legs[k]))
  }

  /** The premises of the theorem. */
  ghost predicate TradesLegs(p: Setup, theta: int, legs: seq<Leg>, labels: seq<int>) {
    && p.Valid() && |labels| == p.N()
    && LegsChain(EvalBars(p), theta, legs) && LabelsOf(legs, labels)
    && Fits(p, legs)
    && SignalsLabels(p, labels) && SignalsFlatAtTheEnd(p, labels)
    && StopsHold(p, legs)
  }

  ghost predicate Fits(p: Setup, legs: seq<Leg>) {
    && p.Valid()
    && (forall k | 0 <= k < |legs| :: legs[k].a < legs[k].b && legs[k].b + 1 < p.N() && (legs[k].direction == 1 || legs[k].direction == -1))
    && (forall k: nat | k + 1 < |legs| :: legs[k].b == legs[k + 1].a && legs[k].direction == -legs[k + 1].direction)
  }

  /** After bar `u` the first `k` legs are traded and the position is that of leg `k`, if it has begun. */
  ghost predicate Following(p: Setup, legs: seq<Leg>, a: Account, u: nat, k: nat)
    requires Fits(p, legs)
  {
    && k <= |legs| && a.trades == TradesOf(p, legs[..k])
    && (k > 0 ==> legs[k - 1].b < u)
    && if k < |legs| && legs[k].a < u then
         u <= legs[k].b && a.position == legs[k].direction
         && a.entryIdx == legs[k].a + 1 && a.entryPrice == EntryOf(p, legs[k])
       else a.position == 0
  }

  /** The label of bar `u`, told by the leg it is in. */
  function LabelAt(legs: seq<Leg>, u: nat, k: nat): int {
    if k < |legs| && legs[k].a < u <= legs[k].b then legs[k].direction else 0
  }

  /** The leg that is current at the next bar. */
  function NextLeg(legs: seq<Leg>, u: nat, k: nat): nat {
    if k < |legs| && legs[k].b < u + 1 then k + 1 else k
  }

  lemma OneMoreTrade(p: Setup, legs: seq<Leg>, k: nat)
    requires Fits(p, legs) && k < |legs|
    ensures TradesOf(p, legs[..k + 1]) == TradesOf(p, legs[..k]) + [TradeOf(p, legs[k])]
  {
  }

  lemma SignalMovesOn(p: Setup, legs: seq<Leg>, a: Account, u: nat, k: nat)
    requires Fits(p, legs) && Following(p, legs, a, u, k) && u + 1 < p.N()
    ensures var k' := NextLeg(legs, u, k);
      Following(p, legs, AfterSignal(a, LabelAt(legs, u + 1, k'), u + 1, p.EvalBar(u + 1)), u + 1, k')
  {
    hide TradesOf, OpeningPrice, ClosingPrice;
    if k < |legs| && legs[k].b == u {
      OneMoreTrade(p, legs, k);
    }
  }

  lemma StopStaysAway(p: Setup, legs: seq<Leg>, a: Account, u: nat, k: nat)
    requires Fits(p, legs) && Following(p, legs, a, u, k) && u < p.N() && StopsHold(p, legs)
    ensures AfterStop(a, p.stopOffset, u, p.EvalBar(u)) == a
  {
    hide TradesOf, OpeningPrice, Touches, StopPrice;
  }

  lemma NextBar(p: Setup, legs: seq<Leg>, a: Account, u: nat, k: nat)
    requires Fits(p, legs) && Following(p, legs, a, u, k) && u + 1 < p.N() && StopsHold(p, legs)
    ensures var k' := NextLeg(legs, u, k);
      var b := AfterSignal(a, LabelAt(legs, u + 1, k'), u + 1, p.EvalBar(u + 1));
      AfterStop(b, p.stopOffset, u + 1, p.EvalBar(u + 1)) == b && Following(p, legs, b, u + 1, k')
  {
    hide Following, AfterSignal, AfterStop, Fits, StopsHold;
    var k' := NextLeg(legs, u, k);
    SignalMovesOn(p, legs, a, u, k);
    StopStaysAway(p, legs, AfterSignal(a, LabelAt(legs, u + 1, k'), u + 1, p.EvalBar(u + 1)), u + 1, k');
  }

  lemma LabelsToldByLegs(p: Setup, theta: int, legs: seq<Leg>, labels: seq<int>, u: nat, k: nat)
    requires TradesLegs(p, theta, legs, labels) && u < p.N() && k <= |legs|
    requires k > 0 ==> legs[k - 1].b < u
    requires k < |legs| ==> u <= legs[k].b && (k > 0 ==> legs[k].a < u)
    ensures labels[u] == LabelAt(legs, u, k)
  {
    if k < |legs| && legs[k].a < u <= legs[k].b {
    } else {
      OutsideTheLegs(EvalBars(p), theta, legs, labels, u);
    }
  }

  ghost predicate Along(p: Setup, legs: seq<Leg>, labels: seq<int>, s: RunState, t: nat, k: nat)
    requires Fits(p, legs) && |labels| == p.N()
  {
    && 0 < t <= p.N()
    && s.halt.Running? && |s.shown| == t && s.positions == labels[..t]
    && s.pending == (if t < p.N() then Some(labels[t]) else None)
    && Following(p, legs, s.acc, t - 1, k)
  }

  lemma AnswersLabel(p: Setup, labels: seq<int>, s: RunState, t: nat, b: Account)
    requires p.Valid() && |labels| == p.N() && t < p.N() && |s.shown| == t
    requires SignalsLabels(p, labels) && SignalsFlatAtTheEnd(p, labels)
    ensures var shown := s.shown + [StateShown(p.start, t, b)];
      p.decider(p.Visible(t), shown) == Answer(if t + 1 < p.N() then labels[t + 1] else 0)
  {
  }

  lemma LabelRange(p: Setup, theta: int, legs: seq<Leg>, labels: seq<int>, t: nat)
    requires TradesLegs(p, theta, legs, labels) && t < p.N()
    ensures -1 <= labels[t] <= 1
  {
    if Covered(legs, t) {
      var k :| 0 <= k < |legs| && legs[k].a < t <= legs[k].b;
    }
  }

  lemma NextLegIsCurrent(p: Setup, legs: seq<Leg>, a: Account, u: nat, k: nat)
    requires Fits(p, legs) && Following(p, legs, a, u, k)
    ensures var k' := NextLeg(legs, u, k);
      && k' <= |legs| && (k' > 0 ==> legs[k' - 1].b < u + 1)
      && (k' < |legs| ==> u + 1 <= legs[k'].b && (k' > 0 ==> legs[k'].a < u + 1))
  {
    hide TradesOf;
  }

  /** One step of a run whose account and answer are known. */
  lemma StepIs(p: Setup, s: RunState, t: nat, b: Account, signal: int)
    requires p.Valid() && t < p.N() && s.halt.Running? && -1 <= signal <= 1
    requires b == AfterStop(if s.pending.Some? then AfterSignal(s.acc, s.pending.value, t, p.EvalBar(t)) else s.acc,
                            p.stopOffset, t, p.EvalBar(t))
    requires p.decider(p.Visible(t), s.shown + [StateShown(p.start, t, b)]) == Answer(signal)
    ensures StepBar(p, s, t) == RunState(b, if t + 1 < p.N() then Some(signal) else None,
                                         s.positions + [b.position], s.shown + [StateShown(p.start, t, b)],
                                         s.signals + [signal], Running)
  {
    hide AfterSignal, AfterStop, StateShown;
  }

  lemma PositionIsLabel(p: Setup, legs: seq<Leg>, a: Account, u: nat, k: nat)
    requires Fits(p, legs) && Following(p, legs, a, u, k)
    ensures a.position == LabelAt(legs, u, k)
  {
    hide TradesOf;
  }

  lemma StepAlong(p: Setup, theta: int, legs: seq<Leg>, labels: seq<int>, s: RunState, t: nat, k: nat) returns (k': nat)
    requires TradesLegs(p, theta, legs, labels) && t < p.N() && Along(p, legs, labels, s, t, k)
    ensures Along(p, legs, labels, StepBar(p, s, t), t + 1, k')
  {
    hide AfterSignal, AfterStop, StateShown, StepBar, Following, TradesOf, NextLeg;
    hide StopsHold, LabelsOf, LegsChain, SignalsLabels, SignalsFlatAtTheEnd, Fits;
    k' := NextLeg(legs, t - 1, k);
    var next := if t + 1 < p.N() then labels[t + 1] else 0;
    if t + 1 < p.N() {
      LabelRange(p, theta, legs, labels, t + 1);
    }
    NextLegIsCurrent(p, legs, s.acc, t - 1, k);
    LabelsToldByLegs(p, theta, legs, labels, t, k');
    NextBar(p, legs, s.acc, t - 1, k);
    var b := AfterSignal(s.acc, labels[t], t, p.EvalBar(t));
    PositionIsLabel(p, legs, b, t, k');
    AnswersLabel(p, labels, s, t, b);
    StepIs(p, s, t, b, next);
    assert labels[..t + 1] == labels[..t] + [labels[t]];
  }

  lemma FirstBar(p: Setup, theta: int, legs: seq<Leg>, labels: seq<int>)
    requires TradesLegs(p, theta, legs, labels)
    ensures Along(p, legs, labels, StateAt(p, 1), 1, 0)
  {
    hide StopsHold, LabelsOf, LegsChain, SignalsLabels, SignalsFlatAtTheEnd, StateShown;
    LabelsToldByLegs(p, theta, legs, labels, 0, 0);
    var s := StateAt(p, 0);
    AnswersLabel(p, labels, s, 0, s.acc);
    if 1 < p.N() {
      LabelRange(p, theta, legs, labels, 1);
    }
    assert TradesOf(p, legs[..0]) == [];
    assert labels[..1] == [labels[0]];
  }

  lemma {:induction false} RunFollowsLegs(p: Setup, theta: int, legs: seq<Leg>, labels: seq<int>, t: nat)
    returns (k: nat)
    requires TradesLegs(p, theta, legs, labels) && 0 < t <= p.N()
    ensures Along(p, legs, labels, StateAt(p, t), t, k)
  {
    hide StepBar, Along;
    if t == 1 {
      k := 0;
      FirstBar(p, theta, legs, labels);
    } else {
      k := RunFollowsLegs(p, theta, legs, labels, t - 1);
      k := StepAlong(p, theta, legs, labels, StateAt(p, t - 1), t - 1, k);
    }
  }

  predicate LegFits(p: Setup, leg: Leg)
    requires p.Valid()
  {
    leg.a < leg.b && leg.b + 1 < p.N() && TradeOf(p, leg).pnlMilli == leg.realizableMilli
  }

  lemma FitsFewer(p: Setup, legs: seq<Leg>, n: nat)
    requires Fits(p, legs) && n <= |legs|
    ensures Fits(p, legs[..n])
  {
  }

  lemma {:induction false} ProfitOfTrades(p: Setup, legs: seq<Leg>)
    requires Fits(p, legs)
    requires forall k | 0 <= k < |legs| :: LegFits(p, legs[k])
    ensures TotalPnl(TradesOf(p, legs)) == SumRealizable(legs)
  {
    hide TradeOf;
    if legs != [] {
      var n := |legs| - 1;
      FitsFewer(p, legs, n);
      ProfitOfTrades(p, legs[..n]);
      assert TradesOf(p, legs)[..n] == TradesOf(p, legs[..n]);
      hide Fits;
      assert LegFits(p, legs[n]);
    }
  }

  lemma TradeOfLegBetween(p: Setup, x: Turn, y: Turn)
    requires p.Valid() && x.pos < y.pos && y.pos + 1 < p.N()
    ensures LegFits(p, LegBetween(EvalBars(p), x, y))
  {
  }

  lemma ChainFits(p: Setup, theta: int, legs: seq<Leg>)
    requires p.Valid() && LegsChain(EvalBars(p), theta, legs)
    ensures Fits(p, legs)
  {
    assert forall k: nat | k < |legs| :: IsMove(EvalBars(p), theta, legs[k]);
  }

  /** The turns of the mid prices that the run is evaluated on. */
  ghost predicate TurnsOfRun(p: Setup, theta: int, turns: seq<Turn>) {
    p.Valid() && theta >= 1 && IsZigzag(Mids(EvalBars(p)), theta, turns)
  }

  /** The legs of a zigzag fit the run, and the trade of a leg earns its realizable profit. */
  lemma LegsFit(p: Setup, theta: int, turns: seq<Turn>)
    ensures TurnsOfRun(p, theta, turns) ==>
      && Increasing(turns, p.N())
      && var legs := LegsOf(EvalBars(p), turns);
      LegsChain(EvalBars(p), theta, legs) && Fits(p, legs) && forall k | 0 <= k < |legs| :: LegFits(p, legs[k])
  {
    hide IsZigzag, LegsChain, LegsOf, LegBetween, TradeOf, Fits;
    if TurnsOfRun(p, theta, turns) {
      var bars := EvalBars(p);
      LegsOfZigzag(bars, theta, turns);
      forall k: nat | k < |turns| ensures turns[k].pos + 1 < |bars| {
        LastBarExclusionNeverFires(Mids(bars), theta, turns, k);
      }
      LegPerSwing(bars, turns);
      var legs := LegsOf(bars, turns);
      ChainFits(p, theta, legs);
      forall k: nat | k < |legs| ensures LegFits(p, legs[k]) {
        TradeOfLegBetween(p, turns[k], turns[k + 1]);
      }
    }
  }

  /**
   The engine that is told the label of the next bar, and is not stopped out of a
   leg, makes one trade for each leg, holds exactly the labels, and earns exactly
   the realizable profit of the benchmark.
   */
  lemma TradingTheLabelsEarnsTheBenchmark(p: Setup, theta: int, turns: seq<Turn>, labels: seq<int>)
    requires TurnsOfRun(p, theta, turns) && Increasing(turns, p.N())
    requires var legs := LegsOf(EvalBars(p), turns); |labels| == p.N() && LabelsOf(legs, labels)
    requires SignalsLabels(p, labels) && SignalsFlatAtTheEnd(p, labels)
    requires StopsHold(p, LegsOf(EvalBars(p), turns))
    ensures Fits(p, LegsOf(EvalBars(p), turns))
    ensures var legs := LegsOf(EvalBars(p), turns);
      && ResultOf(p) == Finished(SimOutcome(RunOk, TradesOf(p, legs), labels))
      && TotalPnl(TradesOf(p, legs)) == SumRealizable(legs)
  {
    hide IsZigzag, StepBar, LabelsOf, LegsChain, StopsHold, SignalsLabels, SignalsFlatAtTheEnd;
    LegsFit(p, theta, turns);
    var legs := LegsOf(EvalBars(p), turns);
    var k := RunFollowsLegs(p, theta, legs, labels, p.N());
    assert legs[..|legs|] == legs && labels[..|labels|] == labels;
    ProfitOfTrades(p, legs);
  }
}

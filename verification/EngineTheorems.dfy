/** The main results about finished runs of the engine, and the absence of look-ahead. */
module EngineTheorems {
  import opened Wrappers
  import opened Market
  import opened Engine
  import opened EngineRuns

  // --------------------------------------------------------- two views of a run

  /**
   The trades of a finished run and its positions are the same history: a bar is
   in the market exactly when one trade covers it, in that trade's direction.
   */
  ghost predicate OneHistory(trades: seq<SimTrade>, positions: seq<int>) {
    && Ordered(trades)
    && (forall k, i: nat | 0 <= k < |trades| && i < |positions| && Covers(trades[k], i) ::
          positions[i] == trades[k].direction)
    && (forall i: nat | i < |positions| && positions[i] != 0 :: SomeCovers(trades, i))
    && (forall j, k, i: nat | 0 <= j < |trades| && 0 <= k < |trades| && Covers(trades[j], i) && Covers(trades[k], i) ::
          j == k)
    && Busy(positions) == Durations(trades)
  }

  lemma {:induction false} LaterTradeStartsLater(p: Setup, signals: seq<int>, trades: seq<SimTrade>, j: nat, k: nat)
    requires p.Valid() && TradesOk(p, signals, trades) && Ordered(trades) && j < k < |trades|
    ensures trades[j].exitIdx <= trades[k].entryIdx && trades[j].reason != EndOfData
  {
    assert TradeOk(p, signals, trades[j]) && TradeOk(p, signals, trades[k - 1]) && TradeOk(p, signals, trades[k]);
    assert Precedes(trades[k - 1], trades[k - 1 + 1].entryIdx);
    if j < k - 1 {
      LaterTradeStartsLater(p, signals, trades, j, k - 1);
    }
  }

  lemma OneTradeAtATime(p: Setup, signals: seq<int>, trades: seq<SimTrade>, j: nat, k: nat, i: nat)
    requires p.Valid() && TradesOk(p, signals, trades) && Ordered(trades) && j < |trades| && k < |trades|
    requires Covers(trades[j], i) && Covers(trades[k], i)
    ensures j == k
  {
    if j < k {
      LaterTradeStartsLater(p, signals, trades, j, k);
    } else if k < j {
      LaterTradeStartsLater(p, signals, trades, k, j);
    }
  }

  lemma EndTrade(p: Setup, s: RunState)
    requires p.Valid() && s == StateAt(p, p.N()) && s.halt.Running? && s.acc.position != 0
    ensures var trades := AtPeriodEnd(s.acc, p.N(), p.EvalBar(p.N() - 1));
      && |trades| == |s.acc.trades| + 1 && trades[..|s.acc.trades|] == s.acc.trades
      && TradeOk(p, s.signals, trades[|s.acc.trades|]) && trades[|s.acc.trades|].reason == EndOfData
      && Ordered(trades)
  {
    RunsAreGood(p, p.N());
  }

  lemma EndHistory(a: Account, positions: seq<int>, tr: SimTrade)
    requires SameHistory(a, positions) && a.position != 0 && positions != []
    requires tr.direction == a.position && tr.entryIdx == a.entryIdx && tr.exitIdx == |positions| - 1 && tr.reason == EndOfData
    requires a.entryIdx < |positions|
    ensures SameHistory(a.(position := 0, trades := a.trades + [tr]), positions)
  {
    MoreTrades(a.trades, tr);
    var more := a.trades + [tr];
    forall k, i: nat | 0 <= k < |more| && i < |positions| && Covers(more[k], i) ensures positions[i] == more[k].direction {
      if k < |a.trades| {
        assert Covers(a.trades[k], i);
      }
    }
    forall i: nat | i < |positions| && positions[i] != 0 ensures SomeCovers(more, i) {
      assert SomeCovers(a.trades, i) || Covers(tr, i);
    }
  }

  /** The trades of a run that went through every bar. */
  ghost predicate WholeRun(p: Setup, signals: seq<int>, o: SimOutcome)
    requires p.Valid()
  {
    && |o.positions| == |signals| == p.N()
    && TradesOk(p, signals, o.trades)
    && OneHistory(o.trades, o.positions)
    && FollowsSignals(o.trades, o.positions, signals)
  }

  lemma FinishedRun(p: Setup, s: RunState, trades: seq<SimTrade>)
    requires p.Valid() && s == StateAt(p, p.N()) && s.halt.Running?
    requires trades == AtPeriodEnd(s.acc, p.N(), p.EvalBar(p.N() - 1))
    ensures |s.positions| == |s.signals| == p.N()
    ensures TradesOk(p, s.signals, trades) && Ordered(trades)
    ensures SameHistory(s.acc.(position := 0, trades := trades), s.positions)
    ensures Busy(s.positions) == Durations(trades) && FollowsSignals(trades, s.positions, s.signals)
  {
    RunsAreGood(p, p.N());
    if s.acc.position == 0 {
      assert s.acc == s.acc.(position := 0, trades := trades);
    } else {
      EndTrade(p, s);
      var tr := trades[|s.acc.trades|];
      assert trades == s.acc.trades + [tr];
      MoreTrades(s.acc.trades, tr);
      EndHistory(s.acc, s.positions, tr);
    }
  }

  /** In every run that ends Ok the trades and the positions are two views of one history. */
  lemma TradesAndPositionsAgree(p: Setup)
    requires p.Valid() && ResultOf(p).Finished? && ResultOf(p).outcome.status.RunOk?
    ensures WholeRun(p, StateAt(p, p.N()).signals, ResultOf(p).outcome)
  {
    hide SameHistory, Good, TradeOk, FollowsSignals, Ordered, Precedes;
    var s, o := StateAt(p, p.N()), ResultOf(p).outcome;
    FinishedRun(p, s, o.trades);
    forall j, k, i: nat | 0 <= j < |o.trades| && 0 <= k < |o.trades| && Covers(o.trades[j], i) && Covers(o.trades[k], i)
      ensures j == k
    {
      OneTradeAtATime(p, s.signals, o.trades, j, k, i);
    }
    HistoryOfFlat(s.acc.(position := 0, trades := o.trades), s.positions);
  }

  lemma HistoryOfFlat(a: Account, positions: seq<int>)
    requires SameHistory(a, positions) && a.position == 0
    ensures forall k, i: nat | 0 <= k < |a.trades| && i < |positions| && Covers(a.trades[k], i) ::
              positions[i] == a.trades[k].direction
    ensures forall i: nat | i < |positions| && positions[i] != 0 :: SomeCovers(a.trades, i)
  {
  }

  /** A run stopped by the script keeps well-formed trades, none of them closed by the end of the data. */
  lemma StoppedRun(p: Setup)
    requires p.Valid() && ResultOf(p).Finished? && !ResultOf(p).outcome.status.RunOk?
    ensures var o, s := ResultOf(p).outcome, StateAt(p, p.N());
      && |o.positions| <= p.N()
      && TradesOk(p, s.signals, o.trades) && Ordered(o.trades)
      && (forall k | 0 <= k < |o.trades| :: o.trades[k].reason != EndOfData && o.trades[k].exitIdx < |o.positions|)
      && FollowsSignals(o.trades, o.positions, s.signals)
  {
    RunsAreGood(p, p.N());
  }

  // ------------------------------------------------------------- stop discipline

  predicate ValidBars(p: Setup)
    requires p.Valid()
  {
    forall t: nat | t < p.N() :: p.EvalBar(t).Valid()
  }

  /**
   A protective stop always loses at least the stop distance; over valid bars its
   fill lies inside the range of its bar, and a trade closed by the end of the
   data has lost less than the stop distance.
   */
  lemma StopDiscipline(p: Setup, signals: seq<int>, tr: SimTrade)
    requires p.Valid() && TradeOk(p, signals, tr)
    ensures tr.reason == ProtectiveStop ==> tr.pnlMilli <= -p.stopOffset
    ensures ValidBars(p) && tr.reason == ProtectiveStop ==>
      var bar := p.EvalBar(tr.exitIdx);
      if tr.direction == 1 then bar.bidLow <= tr.exitMilli <= bar.bidHigh else bar.askLow <= tr.exitMilli <= bar.askHigh
    ensures ValidBars(p) && tr.reason == EndOfData ==> tr.pnlMilli > -p.stopOffset
  {
    var bar := p.EvalBar(tr.exitIdx);
    if ValidBars(p) {
      assert bar.Valid();
    }
    if tr.reason == EndOfData {
      assert !Touches(tr.direction, StopPrice(tr.direction, tr.entryMilli, p.stopOffset), bar);
    }
  }

  // --------------------------------------------------------------- no look-ahead

  /** Two datasets for the same decider that agree up to evaluation bar `k`. */
  ghost predicate AgreeUpTo(p: Setup, q: Setup, k: nat) {
    && p.Valid() && q.Valid() && p.start == q.start && p.decider == q.decider && p.stopOffset == q.stopOffset
    && k <= p.N() && k <= q.N()
    && p.bars[..p.start + k] == q.bars[..q.start + k]
  }

  ghost predicate SameSoFar(s: RunState, r: RunState) {
    s.(pending := None) == r.(pending := None)
  }

  lemma SameSteps(p: Setup, q: Setup, s: RunState, r: RunState, t: nat)
    requires p.Valid() && q.Valid() && t < p.N() && t < q.N()
    requires p.start == q.start && p.decider == q.decider && p.stopOffset == q.stopOffset
    requires p.Visible(t) == q.Visible(t) && p.EvalBar(t) == q.EvalBar(t)
    requires SameSoFar(s, r) && (s.halt.Running? ==> s.pending == r.pending)
    ensures SameSoFar(StepBar(p, s, t), StepBar(q, r, t))
    ensures StepBar(p, s, t).halt.Running? && t + 1 < p.N() && t + 1 < q.N() ==>
              StepBar(p, s, t).pending == StepBar(q, r, t).pending
  {
    hide AfterSignal, AfterStop, StateShown;
  }

  lemma {:induction false} SameStates(p: Setup, q: Setup, k: nat, t: nat)
    requires AgreeUpTo(p, q, k) && t <= k
    ensures SameSoFar(StateAt(p, t), StateAt(q, t))
    ensures StateAt(p, t).halt.Running? && t < p.N() && t < q.N() ==> StateAt(p, t).pending == StateAt(q, t).pending
  {
    hide StepBar;
    if t > 0 {
      SameStates(p, q, k, t - 1);
      assert p.Visible(t - 1) == p.bars[..p.start + k][..p.start + t];
      assert q.Visible(t - 1) == q.bars[..q.start + k][..q.start + t];
      assert p.EvalBar(t - 1) == p.bars[..p.start + k][p.start + t - 1];
      assert q.EvalBar(t - 1) == q.bars[..q.start + k][q.start + t - 1];
      SameSteps(p, q, StateAt(p, t - 1), StateAt(q, t - 1), t - 1);
    }
  }

  /** The trades closed before bar `k` by a signal or the stop. */
  function Settled(trades: seq<SimTrade>, k: nat): seq<SimTrade> {
    if trades == [] then []
    else
      var tr := trades[|trades| - 1];
      Settled(trades[..|trades| - 1], k) + if tr.exitIdx < k && tr.reason != EndOfData then [tr] else []
  }

  lemma {:induction false} SettledAll(trades: seq<SimTrade>, k: nat)
    requires forall j | 0 <= j < |trades| :: trades[j].exitIdx < k && trades[j].reason != EndOfData
    ensures Settled(trades, k) == trades
  {
    if trades != [] {
      SettledAll(trades[..|trades| - 1], k);
    }
  }

  lemma {:induction false} SettledPrefix(trades: seq<SimTrade>, n: nat, k: nat)
    requires n <= |trades|
    requires forall j | n <= j < |trades| :: trades[j].exitIdx >= k || trades[j].reason == EndOfData
    ensures Settled(trades, k) == Settled(trades[..n], k)
  {
    if n == |trades| {
      assert trades[..n] == trades;
    } else {
      SettledPrefix(trades[..|trades| - 1], n, k);
      assert trades[..|trades| - 1][..n] == trades[..n];
    }
  }

  /** A later bar only adds to what an earlier one left. */
  ghost predicate Extends(s: RunState, r: RunState, k: nat) {
    && s.acc.trades <= r.acc.trades && s.positions <= r.positions
    && (forall j | |s.acc.trades| <= j < |r.acc.trades| :: r.acc.trades[j].exitIdx >= k)
    && (!s.halt.Running? ==> r == s)
  }

  lemma StepExtends(p: Setup, s: RunState, t: nat)
    requires p.Valid() && t < p.N()
    ensures Extends(s, StepBar(p, s, t), t)
  {
  }

  lemma ExtendsFurther(s: RunState, r: RunState, w: RunState, k: nat, u: nat)
    requires Extends(s, r, k) && Extends(r, w, u) && k <= u
    ensures Extends(s, w, k)
  {
    forall j | |s.acc.trades| <= j < |w.acc.trades| ensures w.acc.trades[j].exitIdx >= k {
      if j < |r.acc.trades| {
        assert w.acc.trades[j] == r.acc.trades[j];
      }
    }
  }

  lemma {:induction false} LaterExtends(p: Setup, k: nat, u: nat)
    requires p.Valid() && k <= u <= p.N()
    ensures Extends(StateAt(p, k), StateAt(p, u), k)
  {
    hide StepBar;
    if k < u {
      hide Extends;
      LaterExtends(p, k, u - 1);
      StepExtends(p, StateAt(p, u - 1), u - 1);
      ExtendsFurther(StateAt(p, k), StateAt(p, u - 1), StateAt(p, u), k, u - 1);
    }
  }

  lemma SettledSoFar(p: Setup, k: nat)
    requires p.Valid() && k <= p.N()
    ensures var trades := StateAt(p, k).acc.trades;
      forall j | 0 <= j < |trades| :: trades[j].exitIdx < k && trades[j].reason != EndOfData
  {
    hide StateAt, TradesOk, Ordered, HeldOk, SameHistory, FollowsSignals, Busy, Durations;
    RunsAreGood(p, k);
  }

  /** What a finished run shows of the bars before `k` is decided by bar `k`. */
  lemma OutcomeBefore(p: Setup, k: nat)
    requires p.Valid() && k <= p.N() && ResultOf(p).Finished?
    ensures StateAt(p, k).positions <= ResultOf(p).outcome.positions
    ensures Settled(ResultOf(p).outcome.trades, k) == StateAt(p, k).acc.trades
  {
    hide StateAt;
    var s, o := StateAt(p, k), ResultOf(p).outcome;
    LaterExtends(p, k, p.N());
    SettledSoFar(p, k);
    SettledAll(s.acc.trades, k);
    assert o.trades[..|s.acc.trades|] == s.acc.trades;
    SettledPrefix(o.trades, |s.acc.trades|, k);
  }

  /**
   No look-ahead: when two datasets agree on the bars before `k` and the decider
   only uses what it has been shown, the runs have the same positions on those
   bars, the same trades settled before `k`, and the same result if they stop there.
   */
  lemma NoLookAhead(p: Setup, q: Setup, k: nat)
    requires AgreeUpTo(p, q, k)
    ensures StateAt(p, k).positions == StateAt(q, k).positions && StateAt(p, k).shown == StateAt(q, k).shown
    ensures ResultOf(p).Finished? ==> StateAt(p, k).positions <= ResultOf(p).outcome.positions
    ensures ResultOf(q).Finished? ==> StateAt(q, k).positions <= ResultOf(q).outcome.positions
    ensures ResultOf(p).Finished? && ResultOf(q).Finished? ==>
              Settled(ResultOf(p).outcome.trades, k) == Settled(ResultOf(q).outcome.trades, k)
    ensures !StateAt(p, k).halt.Running? ==> ResultOf(p) == ResultOf(q)
    ensures StateAt(p, k).halt.Running? ==> |StateAt(p, k).positions| == k
  {
    hide StateAt, Good;
    SameStates(p, q, k, k);
    if ResultOf(p).Finished? {
      OutcomeBefore(p, k);
    }
    if ResultOf(q).Finished? {
      OutcomeBefore(q, k);
    }
    LaterExtends(p, k, p.N());
    LaterExtends(q, k, q.N());
    if StateAt(p, k).halt.Running? {
      RunsAreGood(p, k);
      GoodSizes(p, StateAt(p, k).acc, StateAt(p, k).positions, StateAt(p, k).signals, k);
    }
  }
}

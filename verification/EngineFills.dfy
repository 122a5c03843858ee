/** What a run of the engine says in terms of its bars, its stop distance and its decider alone. */
module EngineFills {
  import opened Wrappers
  import opened Market
  import opened Engine
  import opened EngineRuns
  import opened EngineTheorems

  // ---------------------------------------------------------------- the prices

  /**
   A long trade is bought at the ask and sold at the bid. Its stop is the distance
   `d` below its entry: no bar before its last one reaches it, and a bar that does
   sells there, or at the open of a bar that opens below.
   */
  predicate LongTrade(bars: seq<Bar>, d: int, tr: SimTrade)
    requires tr.entryIdx <= tr.exitIdx < |bars|
  {
    var entry, last := bars[tr.entryIdx].askOpen, bars[tr.exitIdx];
    && tr.entryMilli == entry && tr.pnlMilli == tr.exitMilli - entry
    && (forall i | tr.entryIdx <= i < tr.exitIdx :: bars[i].bidLow > entry - d)
    && match tr.reason
       case Signal => tr.exitMilli == last.bidOpen
       case ProtectiveStop =>
         && last.bidLow <= entry - d
         && tr.exitMilli == if last.bidOpen >= entry - d then entry - d else last.bidOpen
       case EndOfData => tr.exitIdx == |bars| - 1 && last.bidLow > entry - d && tr.exitMilli == last.bidClose
  }

  /** A short trade is sold at the bid and bought back at the ask, with its stop above its entry. */
  predicate ShortTrade(bars: seq<Bar>, d: int, tr: SimTrade)
    requires tr.entryIdx <= tr.exitIdx < |bars|
  {
    var entry, last := bars[tr.entryIdx].bidOpen, bars[tr.exitIdx];
    && tr.entryMilli == entry && tr.pnlMilli == entry - tr.exitMilli
    && (forall i | tr.entryIdx <= i < tr.exitIdx :: bars[i].askHigh < entry + d)
    && match tr.reason
       case Signal => tr.exitMilli == last.askOpen
       case ProtectiveStop =>
         && last.askHigh >= entry + d
         && tr.exitMilli == if last.askOpen <= entry + d then entry + d else last.askOpen
       case EndOfData => tr.exitIdx == |bars| - 1 && last.askHigh < entry + d && tr.exitMilli == last.askClose
  }

  predicate FilledByTheBars(bars: seq<Bar>, d: int, tr: SimTrade) {
    && tr.entryIdx <= tr.exitIdx < |bars|
    && ((tr.direction == 1 && LongTrade(bars, d, tr)) || (tr.direction == -1 && ShortTrade(bars, d, tr)))
  }

  lemma TradeIsFilledByTheBars(p: Setup, signals: seq<int>, tr: SimTrade)
    requires p.Valid() && TradeOk(p, signals, tr)
    ensures FilledByTheBars(p.bars[p.start..], p.stopOffset, tr)
  {
    var bars := p.bars[p.start..];
    assert forall i: nat | i < p.N() :: bars[i] == p.EvalBar(i);
    assert forall i: nat | tr.entryIdx <= i < tr.exitIdx ::
      !Touches(tr.direction, StopPrice(tr.direction, tr.entryMilli, p.stopOffset), p.EvalBar(i));
    if tr.reason == EndOfData {
      assert !Touches(tr.direction, StopPrice(tr.direction, tr.entryMilli, p.stopOffset), p.EvalBar(tr.exitIdx));
    }
  }

  /** Every trade of every run that is not fatal is filled at the prices of its bars. */
  lemma FillsOfRuns(p: Setup)
    requires p.Valid() && ResultOf(p).Finished?
    ensures forall k | 0 <= k < |ResultOf(p).outcome.trades| ::
              FilledByTheBars(p.bars[p.start..], p.stopOffset, ResultOf(p).outcome.trades[k])
  {
    hide TradeOk, FilledByTheBars, OneHistory, FollowsSignals, Ordered;
    var s, o := StateAt(p, p.N()), ResultOf(p).outcome;
    hide StateAt;
    if o.status.RunOk? {
      TradesAndPositionsAgree(p);
    } else {
      StoppedRun(p);
    }
    forall k | 0 <= k < |o.trades| ensures FilledByTheBars(p.bars[p.start..], p.stopOffset, o.trades[k]) {
      assert TradeOk(p, s.signals, o.trades[k]);
      TradeIsFilledByTheBars(p, s.signals, o.trades[k]);
    }
  }

  /** A protective stop loses exactly its distance when the bar does not open beyond it, and more otherwise. */
  lemma StopLosesItsDistanceExactlyWhen(bars: seq<Bar>, d: int, tr: SimTrade)
    requires FilledByTheBars(bars, d, tr) && tr.reason == ProtectiveStop
    ensures var last := bars[tr.exitIdx];
      tr.pnlMilli <= -d
      && (tr.pnlMilli == -d <==>
          if tr.direction == 1 then last.bidOpen >= bars[tr.entryIdx].askOpen - d
          else last.askOpen <= bars[tr.entryIdx].bidOpen + d)
  {
  }

  // ------------------------------------------------- the decider and the states

  /** The signals are the decider's answers to the bars so far and to the states it was shown. */
  predicate AnswersOf(p: Setup, shown: seq<BarState>, signals: seq<int>)
    requires p.Valid()
  {
    && |signals| <= |shown| <= p.N()
    && forall t: nat | t < |signals| ::
      -1 <= signals[t] <= 1 && p.decider(p.bars[..p.start + t + 1], shown[..t + 1]) == Answer(signals[t])
  }

  /** How a run that went on up to bar `t` stands. */
  ghost predicate Standing(p: Setup, s: RunState, t: nat)
    requires p.Valid()
  {
    && AnswersOf(p, s.shown, s.signals) && |s.shown| == |s.positions|
    && match s.halt
       case Running => |s.signals| == |s.shown| == t
       case ScriptHalt(openTime, message) =>
         && |s.signals| + 1 == |s.shown| <= t
         && var u := |s.signals|;
         && openTime == p.bars[p.start + u].openTime
         && var d := p.decider(p.bars[..p.start + u + 1], s.shown);
         if d.Answer? then !(-1 <= d.signal <= 1) && message == UNEXPECTED_SIGNAL else d == ScriptFailure(message)
       case FatalHalt(message) =>
         && |s.signals| + 1 == |s.shown| <= t
         && p.decider(p.bars[..p.start + |s.signals| + 1], s.shown) == FatalFailure(message)
  }

  lemma StandingNext(p: Setup, s: RunState, t: nat)
    requires p.Valid() && t < p.N() && Standing(p, s, t)
    ensures Standing(p, StepBar(p, s, t), t + 1)
  {
    hide AfterSignal, AfterStop, StateShown;
    var r := StepBar(p, s, t);
    if s.halt.Running? {
      assert r.shown[..t + 1] == r.shown;
      forall u: nat | u < |r.signals|
        ensures -1 <= r.signals[u] <= 1 && p.decider(p.bars[..p.start + u + 1], r.shown[..u + 1]) == Answer(r.signals[u])
      {
        if u < t {
          assert r.shown[..u + 1] == s.shown[..u + 1];
        }
      }
    }
  }

  lemma {:induction false} StandingAt(p: Setup, t: nat)
    requires p.Valid() && t <= p.N()
    ensures Standing(p, StateAt(p, t), t)
  {
    hide Standing, StepBar;
    if t == 0 {
      StandingAtStart(p);
    } else {
      StandingAt(p, t - 1);
      StandingNext(p, StateAt(p, t - 1), t - 1);
    }
  }

  lemma StandingAtStart(p: Setup)
    requires p.Valid()
    ensures Standing(p, StateAt(p, 0), 0)
  {
  }

  /**
   How a run ends is told by the decider's answers: Ok when all of them are signals,
   a script error at the first bar with another answer or a failure, and a fatal
   failure as it is.
   */
  lemma HowARunEnds(p: Setup)
    requires p.Valid()
    ensures var s := StateAt(p, p.N());
      && AnswersOf(p, s.shown, s.signals)
      && match ResultOf(p)
         case Failed(message) =>
           && |s.signals| + 1 == |s.shown|
           && p.decider(p.bars[..p.start + |s.signals| + 1], s.shown) == FatalFailure(message)
         case Finished(SimOutcome(RunOk, _, positions)) => |s.signals| == |s.shown| == |positions| == p.N()
         case Finished(SimOutcome(ScriptError(openTime, message), _, positions)) =>
           && |s.signals| + 1 == |s.shown| == |positions|
           && openTime == p.bars[p.start + |s.signals|].openTime
           && var d := p.decider(p.bars[..p.start + |s.signals| + 1], s.shown);
           if d.Answer? then !(-1 <= d.signal <= 1) && message == UNEXPECTED_SIGNAL else d == ScriptFailure(message)
  {
    hide StateAt, AtPeriodEnd, AnswersOf;
    StandingAt(p, p.N());
  }

  // ------------------------------------------------------- what the script is shown

  function Held(start: nat, u: nat, d: int, entry: int, e: nat): BarState {
    BarState(start + u, d, entry, (u - e) % 0x1_0000_0000)
  }

  /** At every bar that a trade covers, its direction, its entry price and the bars since its entry are shown. */
  predicate ShowsTrade(start: nat, shown: seq<BarState>, tr: SimTrade) {
    forall u: nat | u < |shown| && Covers(tr, u) :: shown[u] == Held(start, u, tr.direction, tr.entryMilli, tr.entryIdx)
  }

  predicate ShowsTrades(start: nat, shown: seq<BarState>, trades: seq<SimTrade>) {
    forall k | 0 <= k < |trades| :: ShowsTrade(start, shown, trades[k])
  }

  predicate ShowsHeld(start: nat, shown: seq<BarState>, a: Account) {
    a.position != 0 ==> forall u: nat | a.entryIdx <= u < |shown| ::
      shown[u] == Held(start, u, a.position, a.entryPrice, a.entryIdx)
  }

  /** A state is shown with its number in the dataset and the position after the stop; a flat one has held nothing. */
  predicate ShowsPositions(start: nat, shown: seq<BarState>, positions: seq<int>) {
    && |shown| == |positions|
    && forall u: nat | u < |shown| ::
      && shown[u].t == start + u && shown[u].position == positions[u]
      && (positions[u] == 0 ==> shown[u].barsHeld == 0)
  }

  /** `x` is the entry price of the last trade that began by bar `u`, and nothing if none did. */
  ghost predicate IsLastEntry(trades: seq<SimTrade>, u: nat, x: int) {
    || (x == 0 && forall k | 0 <= k < |trades| :: trades[k].entryIdx > u)
    || exists k :: 0 <= k < |trades| && trades[k].entryIdx <= u && x == trades[k].entryMilli
                   && forall j | k < j < |trades| :: trades[j].entryIdx > u
  }

  /** Without a position the entry price of the last trade is still shown. */
  ghost predicate ShowsLastEntries(shown: seq<BarState>, trades: seq<SimTrade>) {
    forall u: nat | u < |shown| && shown[u].position == 0 :: IsLastEntry(trades, u, shown[u].entryPriceMilli)
  }

  ghost predicate Shown(p: Setup, s: RunState, t: nat) {
    && |s.shown| <= t && (s.halt.Running? ==> |s.shown| == t)
    && (s.acc.position != 0 ==> s.acc.entryIdx < |s.shown|)
    && (forall k | 0 <= k < |s.acc.trades| :: s.acc.trades[k].exitIdx < |s.shown| && s.acc.trades[k].reason != EndOfData)
    && ShowsTrades(p.start, s.shown, s.acc.trades)
    && ShowsHeld(p.start, s.shown, s.acc)
    && ShowsPositions(p.start, s.shown, s.positions)
  }

  lemma ShownAfterSignal(start: nat, shown: seq<BarState>, a: Account, signal: int, bar: Bar)
    requires ShowsTrades(start, shown, a.trades) && ShowsHeld(start, shown, a)
    requires forall k | 0 <= k < |a.trades| :: a.trades[k].exitIdx < |shown| && a.trades[k].reason != EndOfData
    requires a.position != 0 ==> a.entryIdx < |shown|
    ensures var b := AfterSignal(a, signal, |shown|, bar);
      && ShowsTrades(start, shown, b.trades) && ShowsHeld(start, shown, b)
      && (forall k | 0 <= k < |b.trades| :: b.trades[k].exitIdx <= |shown| && b.trades[k].reason != EndOfData)
      && (b.position != 0 ==> b.entryIdx <= |shown|)
  {
  }

  lemma ShownAfterStop(start: nat, shown: seq<BarState>, a: Account, offset: int, bar: Bar)
    requires ShowsTrades(start, shown, a.trades) && ShowsHeld(start, shown, a)
    requires forall k | 0 <= k < |a.trades| :: a.trades[k].exitIdx <= |shown| && a.trades[k].reason != EndOfData
    ensures var b := AfterStop(a, offset, |shown|, bar);
      && ShowsTrades(start, shown, b.trades) && ShowsHeld(start, shown, b)
      && (forall k | 0 <= k < |b.trades| :: b.trades[k].exitIdx <= |shown| && b.trades[k].reason != EndOfData)
      && (b.position != 0 ==> a.position != 0 && b.entryIdx == a.entryIdx)
  {
    hide Touches, StopPrice, StopFill;
  }

  lemma ShownNext(start: nat, shown: seq<BarState>, b: Account, positions: seq<int>)
    requires ShowsTrades(start, shown, b.trades) && ShowsHeld(start, shown, b) && ShowsPositions(start, shown, positions)
    requires forall k | 0 <= k < |b.trades| :: b.trades[k].exitIdx <= |shown| && b.trades[k].reason != EndOfData
    ensures var more := shown + [StateShown(start, |shown|, b)];
      && ShowsTrades(start, more, b.trades) && ShowsHeld(start, more, b)
      && ShowsPositions(start, more, positions + [b.position])
  {
  }

  lemma ShownStep(p: Setup, s: RunState, t: nat)
    requires p.Valid() && t < p.N() && Shown(p, s, t)
    ensures Shown(p, StepBar(p, s, t), t + 1)
  {
    hide AfterSignal, AfterStop, StateShown, ShowsTrades, ShowsHeld, ShowsPositions;
    if s.halt.Running? {
      var bar := p.EvalBar(t);
      var a := if s.pending.Some? then AfterSignal(s.acc, s.pending.value, t, bar) else s.acc;
      if s.pending.Some? {
        ShownAfterSignal(p.start, s.shown, s.acc, s.pending.value, bar);
      }
      ShownAfterStop(p.start, s.shown, a, p.stopOffset, bar);
      var b := AfterStop(a, p.stopOffset, t, bar);
      ShownNext(p.start, s.shown, b, s.positions);
    }
  }

  lemma {:induction false} ShownAt(p: Setup, t: nat)
    requires p.Valid() && t <= p.N()
    ensures Shown(p, StateAt(p, t), t)
  {
    hide Shown, StepBar;
    if t == 0 {
      NothingShown(p);
    } else {
      ShownAt(p, t - 1);
      ShownStep(p, StateAt(p, t - 1), t - 1);
    }
  }

  lemma NothingShown(p: Setup)
    requires p.Valid()
    ensures Shown(p, StateAt(p, 0), 0)
  {
  }

  /** The states that the script was shown in a finished run are those of its trades and positions. */
  lemma StatesShowTheTrades(p: Setup)
    requires p.Valid() && ResultOf(p).Finished?
    ensures var o, shown := ResultOf(p).outcome, StateAt(p, p.N()).shown;
      ShowsTrades(p.start, shown, o.trades) && ShowsPositions(p.start, shown, o.positions)
  {
    var s := StateAt(p, p.N());
    ShownAt(p, p.N());
    hide StateAt, ShowsTrades, ShowsPositions;
    if s.halt.Running? && s.acc.position != 0 {
      LastTradeIsShown(p, s);
    }
  }

  lemma LastTradeIsShown(p: Setup, s: RunState)
    requires p.Valid() && Shown(p, s, p.N()) && s.halt.Running?
    ensures ShowsTrades(p.start, s.shown, AtPeriodEnd(s.acc, p.N(), p.EvalBar(p.N() - 1)))
  {
    hide PeriodEndPrice, Pnl;
  }

  // ------------------------------------------------- the entry price of a flat state

  function LastEntry(trades: seq<SimTrade>): int {
    if trades == [] then 0 else trades[|trades| - 1].entryMilli
  }

  /** Trades began by now; a flat account keeps the last entry price, and a held position shows at every bar since its entry. */
  ghost predicate KeepsEntry(shown: seq<BarState>, a: Account) {
    && ShowsLastEntries(shown, a.trades)
    && (forall k | 0 <= k < |a.trades| :: a.trades[k].entryIdx <= |shown|)
    && (a.position == 0 ==> a.entryPrice == LastEntry(a.trades))
    && (a.position != 0 ==> a.entryIdx <= |shown|)
    && (a.position != 0 ==> forall u: nat | a.entryIdx <= u < |shown| :: shown[u].position != 0)
  }

  lemma OneMoreEntry(shown: seq<BarState>, trades: seq<SimTrade>, tr: SimTrade)
    requires ShowsLastEntries(shown, trades)
    requires forall u: nat | tr.entryIdx <= u < |shown| :: shown[u].position != 0
    ensures ShowsLastEntries(shown, trades + [tr])
  {
    var more := trades + [tr];
    forall u: nat | u < |shown| && shown[u].position == 0 ensures IsLastEntry(more, u, shown[u].entryPriceMilli) {
      assert IsLastEntry(trades, u, shown[u].entryPriceMilli);
      if k :| 0 <= k < |trades| && trades[k].entryIdx <= u && shown[u].entryPriceMilli == trades[k].entryMilli
              && forall j | k < j < |trades| :: trades[j].entryIdx > u {
        assert more[k] == trades[k];
      }
    }
  }

  lemma EntryAfterSignal(shown: seq<BarState>, a: Account, signal: int, bar: Bar)
    requires KeepsEntry(shown, a)
    ensures KeepsEntry(shown, AfterSignal(a, signal, |shown|, bar))
  {
    if signal != a.position && a.position != 0 {
      OneMoreEntry(shown, a.trades,
        ClosedTrade(a.position, a.entryIdx, |shown|, a.entryPrice, ClosingPrice(a.position, bar), Signal));
    }
    hide ShowsLastEntries;
  }

  lemma EntryAfterStop(shown: seq<BarState>, a: Account, offset: int, bar: Bar)
    requires KeepsEntry(shown, a)
    ensures KeepsEntry(shown, AfterStop(a, offset, |shown|, bar))
  {
    hide Touches, StopPrice, StopFill, Pnl;
    var b := AfterStop(a, offset, |shown|, bar);
    if b != a {
      OneMoreEntry(shown, a.trades, b.trades[|a.trades|]);
    }
    hide ShowsLastEntries;
  }

  lemma EntryNext(start: nat, shown: seq<BarState>, b: Account)
    requires KeepsEntry(shown, b)
    ensures KeepsEntry(shown + [StateShown(start, |shown|, b)], b)
  {
    var more := shown + [StateShown(start, |shown|, b)];
    forall u: nat | u < |more| && more[u].position == 0 ensures IsLastEntry(b.trades, u, more[u].entryPriceMilli) {
      if u < |shown| {
        assert IsLastEntry(b.trades, u, shown[u].entryPriceMilli);
      } else if b.trades != [] {
        assert b.trades[|b.trades| - 1].entryIdx <= u;
      }
    }
  }

  lemma EntryStep(p: Setup, s: RunState, t: nat)
    requires p.Valid() && t < p.N() && KeepsEntry(s.shown, s.acc) && (s.halt.Running? ==> |s.shown| == t)
    ensures var r := StepBar(p, s, t); KeepsEntry(r.shown, r.acc) && (r.halt.Running? ==> |r.shown| == t + 1)
  {
    hide AfterSignal, AfterStop, StateShown, KeepsEntry;
    if s.halt.Running? {
      var bar := p.EvalBar(t);
      var a := if s.pending.Some? then AfterSignal(s.acc, s.pending.value, t, bar) else s.acc;
      if s.pending.Some? {
        EntryAfterSignal(s.shown, s.acc, s.pending.value, bar);
      }
      EntryAfterStop(s.shown, a, p.stopOffset, bar);
      EntryNext(p.start, s.shown, AfterStop(a, p.stopOffset, t, bar));
    }
  }

  lemma {:induction false} EntryAt(p: Setup, t: nat)
    requires p.Valid() && t <= p.N()
    ensures var s := StateAt(p, t); KeepsEntry(s.shown, s.acc) && (s.halt.Running? ==> |s.shown| == t)
  {
    hide KeepsEntry, StepBar;
    if t == 0 {
      NoEntryYet();
    } else {
      EntryAt(p, t - 1);
      EntryStep(p, StateAt(p, t - 1), t - 1);
    }
  }

  lemma NoEntryYet()
    ensures KeepsEntry([], Account(0, 0, 0, []))
  {
  }

  /** Without a position the state still shows the entry price of the last trade that had begun. */
  lemma FlatStatesShowTheLastEntry(p: Setup)
    requires p.Valid() && ResultOf(p).Finished?
    ensures ShowsLastEntries(StateAt(p, p.N()).shown, ResultOf(p).outcome.trades)
  {
    var s := StateAt(p, p.N());
    EntryAt(p, p.N());
    hide StateAt, ShowsLastEntries;
    if s.halt.Running? && s.acc.position != 0 {
      OneMoreEntry(s.shown, s.acc.trades, AtPeriodEnd(s.acc, p.N(), p.EvalBar(p.N() - 1))[|s.acc.trades|]);
    }
  }
}

/** What holds on every run of the engine, bar by bar. */
module EngineRuns {
  import opened Wrappers
  import opened Market
  import opened Engine

  // Each trade was ordered by a signal and filled at the right price, the trades and
  // the positions tell the same history, and no held position has been touched by its
  // stop.

  // ------------------------------------------------------------ one trade

  /** From bar `lo` to before bar `hi` the stop of a position is not touched. */
  predicate Untouched(p: Setup, d: int, entry: int, lo: nat, hi: nat)
    requires p.Valid() && hi <= p.N()
  {
    forall i: nat | lo <= i < hi :: !Touches(d, StopPrice(d, entry, p.stopOffset), p.EvalBar(i))
  }

  /** The entry fills at the open of the bar after the signal that asked for it. */
  predicate EntryOk(p: Setup, signals: seq<int>, d: int, entryIdx: nat, entry: int)
    requires p.Valid()
  {
    && 1 <= entryIdx < p.N() && entryIdx <= |signals|
    && (d == 1 || d == -1)
    && signals[entryIdx - 1] == d
    && entry == OpeningPrice(d, p.EvalBar(entryIdx))
  }

  predicate TradeOk(p: Setup, signals: seq<int>, tr: SimTrade)
    requires p.Valid()
  {
    var d, x := tr.direction, tr.exitIdx;
    && EntryOk(p, signals, d, tr.entryIdx, tr.entryMilli)
    && tr.entryIdx <= x < p.N() && x <= |signals|
    && tr.pnlMilli == Pnl(d, tr.entryMilli, tr.exitMilli)
    && Untouched(p, d, tr.entryMilli, tr.entryIdx, x)
    && match tr.reason
       case Signal => tr.entryIdx < x && signals[x - 1] != d && tr.exitMilli == ClosingPrice(d, p.EvalBar(x))
       case ProtectiveStop =>
         && signals[x - 1] == d
         && Touches(d, StopPrice(d, tr.entryMilli, p.stopOffset), p.EvalBar(x))
         && tr.exitMilli == StopFill(d, StopPrice(d, tr.entryMilli, p.stopOffset), p.EvalBar(x))
       case EndOfData =>
         && x == p.N() - 1
         && Untouched(p, d, tr.entryMilli, tr.entryIdx, p.N())
         && tr.exitMilli == PeriodEndPrice(d, p.EvalBar(x))
  }

  /** A trade can start at bar `i` after `tr`: later, or on the bar at whose open a signal closed `tr`. */
  predicate Precedes(tr: SimTrade, i: nat) {
    tr.exitIdx < i || (tr.exitIdx == i && tr.reason == Signal)
  }

  /** The bars at whose end the trade is held. */
  predicate Covers(tr: SimTrade, i: nat) {
    tr.entryIdx <= i < tr.exitIdx || (i == tr.exitIdx && tr.reason == EndOfData)
  }

  function Duration(tr: SimTrade): int {
    tr.exitIdx - tr.entryIdx + if tr.reason == EndOfData then 1 else 0
  }

  function Durations(trades: seq<SimTrade>): int {
    if trades == [] then 0 else Durations(trades[..|trades|-1]) + Duration(trades[|trades|-1])
  }

  function Busy(positions: seq<int>): nat {
    if positions == [] then 0 else Busy(positions[..|positions|-1]) + if positions[|positions|-1] != 0 then 1 else 0
  }

  // --------------------------------------------------------- the account mid-run

  predicate TradesOk(p: Setup, signals: seq<int>, trades: seq<SimTrade>)
    requires p.Valid()
  {
    forall k | 0 <= k < |trades| :: TradeOk(p, signals, trades[k])
  }

  predicate Ordered(trades: seq<SimTrade>) {
    forall k | 0 <= k < |trades| - 1 :: Precedes(trades[k], trades[k + 1].entryIdx)
  }

  /** Every trade was closed before bar `t` (and not by the end of the data), the last one before the held position. */
  predicate ClosedBefore(a: Account, t: nat) {
    && (forall k | 0 <= k < |a.trades| :: a.trades[k].exitIdx < t && a.trades[k].reason != EndOfData)
    && (a.position != 0 && a.trades != [] ==> Precedes(a.trades[|a.trades| - 1], a.entryIdx))
  }

  /** The position held, if any, was entered by a signal and its stop is untouched before bar `t`. */
  predicate HeldOk(p: Setup, signals: seq<int>, a: Account, t: nat)
    requires p.Valid() && t <= p.N()
  {
    a.position != 0 ==>
      && a.entryIdx < t
      && EntryOk(p, signals, a.position, a.entryIdx, a.entryPrice)
      && Untouched(p, a.position, a.entryPrice, a.entryIdx, t)
  }

  ghost predicate SomeCovers(trades: seq<SimTrade>, i: nat) {
    exists k :: 0 <= k < |trades| && Covers(trades[k], i)
  }

  /** The positions are those of the trades and of the held position. */
  ghost predicate SameHistory(a: Account, positions: seq<int>) {
    && (forall k, i: nat | 0 <= k < |a.trades| && i < |positions| && Covers(a.trades[k], i) ::
          positions[i] == a.trades[k].direction)
    && (a.position != 0 ==> forall i | a.entryIdx <= i < |positions| :: positions[i] == a.position)
    && (forall i: nat | i < |positions| && positions[i] != 0 ::
          SomeCovers(a.trades, i) || (a.position != 0 && a.entryIdx <= i))
  }

  function OpenDuration(a: Account, t: nat): int {
    if a.position == 0 then 0 else t - a.entryIdx
  }

  ghost predicate StoppedAt(trades: seq<SimTrade>, i: nat, d: int) {
    exists k :: 0 <= k < |trades| && trades[k].reason == ProtectiveStop && trades[k].exitIdx == i && trades[k].direction == d
  }

  function SignalBefore(signals: seq<int>, t: nat): int
    requires t <= |signals|
  {
    if t == 0 then 0 else signals[t - 1]
  }

  /** The engine holds what the previous signal asked for, unless the bar stopped it. */
  ghost predicate FollowsSignals(trades: seq<SimTrade>, positions: seq<int>, signals: seq<int>) {
    forall i: nat | i < |positions| && i <= |signals| ::
      positions[i] == SignalBefore(signals, i) || (positions[i] == 0 && StoppedAt(trades, i, SignalBefore(signals, i)))
  }

  /** The account before bar `t` with the positions and signals that led to it. */
  ghost predicate Good(p: Setup, a: Account, positions: seq<int>, signals: seq<int>, t: nat)
    requires p.Valid() && t <= p.N()
  {
    && |positions| == t && (|signals| == t || |signals| + 1 == t)
    && (forall i | 0 <= i < |signals| :: -1 <= signals[i] <= 1)
    && a.position == (if t == 0 then 0 else positions[t - 1])
    && TradesOk(p, signals, a.trades) && Ordered(a.trades) && ClosedBefore(a, t) && HeldOk(p, signals, a, t)
    && SameHistory(a, positions)
    && Busy(positions) == Durations(a.trades) + OpenDuration(a, t)
    && FollowsSignals(a.trades, positions, signals)
  }

  ghost predicate Inv(p: Setup, s: RunState, t: nat)
    requires p.Valid() && t <= p.N()
  {
    && Good(p, s.acc, s.positions, s.signals, t)
    && |s.signals| == t
    && s.pending == (if 0 < t < p.N() then Some(s.signals[t - 1]) else None)
  }

  /** The account at bar `t` after the pending signal and before the stop. */
  ghost predicate Middle(p: Setup, a: Account, positions: seq<int>, signals: seq<int>, t: nat)
    requires p.Valid() && t < p.N()
  {
    && |positions| == t == |signals|
    && (forall i | 0 <= i < |signals| :: -1 <= signals[i] <= 1)
    && a.position == SignalBefore(signals, t)
    && TradesOk(p, signals, a.trades) && Ordered(a.trades) && ClosedBefore(a, t + 1)
    && (a.position != 0 ==> a.entryIdx <= t && EntryOk(p, signals, a.position, a.entryIdx, a.entryPrice)
                            && Untouched(p, a.position, a.entryPrice, a.entryIdx, t))
    && SameHistory(a, positions)
    && (forall k | 0 <= k < |a.trades| :: a.trades[k].exitIdx == t ==> a.trades[k].reason == Signal)
    && Busy(positions) == Durations(a.trades) + OpenDuration(a, t)
    && FollowsSignals(a.trades, positions, signals)
  }

  // ------------------------------------------------------- one more closed trade

  lemma MoreTrades(trades: seq<SimTrade>, tr: SimTrade)
    ensures Durations(trades + [tr]) == Durations(trades) + Duration(tr)
    ensures forall i: nat | SomeCovers(trades, i) || Covers(tr, i) :: SomeCovers(trades + [tr], i)
    ensures forall i: nat, d | StoppedAt(trades, i, d) :: StoppedAt(trades + [tr], i, d)
    ensures forall i: nat, d | tr.reason == ProtectiveStop && tr.exitIdx == i && tr.direction == d ::
              StoppedAt(trades + [tr], i, d)
    ensures forall i: nat | SomeCovers(trades + [tr], i) :: SomeCovers(trades, i) || Covers(tr, i)
  {
    var more := trades + [tr];
    assert more[..|trades|] == trades;
    assert more[|trades|] == tr;
    forall i: nat | SomeCovers(trades, i) ensures SomeCovers(more, i) {
      var k :| 0 <= k < |trades| && Covers(trades[k], i);
      assert more[k] == trades[k];
    }
    forall i: nat, d | StoppedAt(trades, i, d) ensures StoppedAt(more, i, d) {
      var k :| 0 <= k < |trades| && trades[k].reason == ProtectiveStop && trades[k].exitIdx == i && trades[k].direction == d;
      assert more[k] == trades[k];
    }
  }

  /** Closing the held position at bar `t` turns it into a trade and leaves the history as it is. */
  lemma CloseKeepsHistory(a: Account, positions: seq<int>, tr: SimTrade)
    requires SameHistory(a, positions) && a.position != 0
    requires tr.direction == a.position && tr.entryIdx == a.entryIdx && tr.exitIdx == |positions| && tr.reason != EndOfData
    ensures SameHistory(a.(position := 0, trades := a.trades + [tr]), positions)
  {
    MoreTrades(a.trades, tr);
    var more := a.trades + [tr];
    forall k, i: nat | 0 <= k < |more| && i < |positions| && Covers(more[k], i) ensures positions[i] == more[k].direction {
      if k < |a.trades| {
        assert Covers(a.trades[k], i);
      }
    }
    forall i: nat | i < |positions| && positions[i] != 0 ensures SomeCovers(more, i) {
      assert SomeCovers(a.trades, i) || Covers(tr, i);
    }
  }

  // --------------------------------------------------------------- the steps of a bar

  /** What the signal of bar `t` closes: the position held so far. */
  lemma SignalClose(p: Setup, a: Account, positions: seq<int>, signals: seq<int>, t: nat)
    requires p.Valid() && t < p.N() && Good(p, a, positions, signals, t) && |signals| == t
    requires a.position != 0 && signals[t - 1] != a.position
    ensures var tr := ClosedTrade(a.position, a.entryIdx, t, a.entryPrice, ClosingPrice(a.position, p.EvalBar(t)), Signal);
      && TradeOk(p, signals, tr)
      && SameHistory(a.(position := 0, trades := a.trades + [tr]), positions)
      && Ordered(a.trades + [tr])
      && Busy(positions) == Durations(a.trades + [tr])
      && FollowsSignals(a.trades + [tr], positions, signals)
  {
    var tr := ClosedTrade(a.position, a.entryIdx, t, a.entryPrice, ClosingPrice(a.position, p.EvalBar(t)), Signal);
    MoreTrades(a.trades, tr);
    CloseKeepsHistory(a, positions, tr);
  }

  lemma SignalStep(p: Setup, s: RunState, t: nat, b: Account)
    requires p.Valid() && t < p.N() && Inv(p, s, t)
    requires b == if s.pending.Some? then AfterSignal(s.acc, s.pending.value, t, p.EvalBar(t)) else s.acc
    ensures Middle(p, b, s.positions, s.signals, t)
  {
    hide TradeOk, SomeCovers, StoppedAt, Busy, Durations;
    var a := s.acc;
    if t > 0 && s.signals[t - 1] != a.position {
      if a.position != 0 {
        SignalClose(p, a, s.positions, s.signals, t);
      }
      OpenAfterClose(p, a, s.positions, s.signals, t, b);
    }
  }

  lemma OpenAfterClose(p: Setup, a: Account, positions: seq<int>, signals: seq<int>, t: nat, b: Account)
    requires p.Valid() && 0 < t < p.N() && Good(p, a, positions, signals, t) && |signals| == t
    requires signals[t - 1] != a.position && b == AfterSignal(a, signals[t - 1], t, p.EvalBar(t))
    requires a.position != 0 ==>
      && TradeOk(p, signals, b.trades[|b.trades| - 1])
      && SameHistory(a.(position := 0, trades := b.trades), positions)
      && Ordered(b.trades)
      && Busy(positions) == Durations(b.trades)
      && FollowsSignals(b.trades, positions, signals)
    ensures Middle(p, b, positions, signals, t)
  {
    hide TradeOk, SomeCovers, StoppedAt, Busy, Durations, FollowsSignals;
    assert a.position == 0 ==> b.trades == a.trades;
    assert a.position != 0 ==> b.trades[..|a.trades|] == a.trades;
  }

  lemma StopHit(p: Setup, a: Account, positions: seq<int>, signals: seq<int>, t: nat)
    requires p.Valid() && t < p.N() && Middle(p, a, positions, signals, t)
    requires a.position != 0 && Touches(a.position, StopPrice(a.position, a.entryPrice, p.stopOffset), p.EvalBar(t))
    ensures var b := AfterStop(a, p.stopOffset, t, p.EvalBar(t));
      && b.position == 0 && |b.trades| == |a.trades| + 1 && b.trades[..|a.trades|] == a.trades
      && TradeOk(p, signals, b.trades[|a.trades|])
      && b.trades[|a.trades|].exitIdx == t && b.trades[|a.trades|].reason == ProtectiveStop
      && SameHistory(b, positions) && Ordered(b.trades) && Busy(positions) == Durations(b.trades)
      && FollowsSignals(b.trades, positions, signals)
      && StoppedAt(b.trades, t, SignalBefore(signals, t))
  {
    var b := AfterStop(a, p.stopOffset, t, p.EvalBar(t));
    var tr := b.trades[|a.trades|];
    assert b.trades == a.trades + [tr] && b == a.(position := 0, trades := b.trades);
    StopTrade(p, a, positions, signals, t, tr);
    MoreTrades(a.trades, tr);
    CloseKeepsHistory(a, positions, tr);
    hide AfterStop, TradeOk, EntryOk, Untouched, SameHistory, Touches, StoppedAt, SomeCovers;
  }

  /** The trade that a touched stop makes of the held position. */
  lemma StopTrade(p: Setup, a: Account, positions: seq<int>, signals: seq<int>, t: nat, tr: SimTrade)
    requires p.Valid() && t < p.N() && Middle(p, a, positions, signals, t)
    requires var stop := StopPrice(a.position, a.entryPrice, p.stopOffset);
      && a.position != 0 && Touches(a.position, stop, p.EvalBar(t))
      && tr == ClosedTrade(a.position, a.entryIdx, t, a.entryPrice, StopFill(a.position, stop, p.EvalBar(t)), ProtectiveStop)
    ensures TradeOk(p, signals, tr)
  {
    hide TradesOk, SameHistory, Ordered, Busy, Durations, FollowsSignals, Touches, StopFill, StopPrice;
  }

  lemma StopStep(p: Setup, a: Account, positions: seq<int>, signals: seq<int>, t: nat, b: Account)
    requires p.Valid() && t < p.N() && Middle(p, a, positions, signals, t)
    requires b == AfterStop(a, p.stopOffset, t, p.EvalBar(t))
    ensures Good(p, b, positions + [b.position], signals, t + 1)
  {
    hide TradeOk, SomeCovers, StoppedAt, Durations, Touches, StopPrice, EntryOk;
    var more := positions + [b.position];
    assert more[..t] == positions;
    if a.position != 0 && Touches(a.position, StopPrice(a.position, a.entryPrice, p.stopOffset), p.EvalBar(t)) {
      StopHit(p, a, positions, signals, t);
      assert forall k | 0 <= k < |a.trades| :: b.trades[k] == a.trades[k];
    }
  }

  lemma SignalsGrow(p: Setup, a: Account, positions: seq<int>, signals: seq<int>, t: nat, x: int)
    requires p.Valid() && 0 < t <= p.N() && Good(p, a, positions, signals, t) && |signals| + 1 == t && -1 <= x <= 1
    ensures Good(p, a, positions, signals + [x], t)
  {
    var more := signals + [x];
    forall k | 0 <= k < |a.trades| ensures TradeOk(p, more, a.trades[k]) {
      assert TradeOk(p, signals, a.trades[k]);
    }
  }

  lemma BarStep(p: Setup, s: RunState, t: nat)
    requires p.Valid() && t < p.N() && s.halt.Running? && Inv(p, s, t)
    ensures var s' := StepBar(p, s, t);
      if s'.halt.Running? then Inv(p, s', t + 1)
      else |s'.positions| == t + 1 && Good(p, s'.acc, s'.positions, s'.signals, t + 1)
  {
    hide Good, Middle, AfterSignal, AfterStop, StateShown;
    var bar := p.EvalBar(t);
    var a := if s.pending.Some? then AfterSignal(s.acc, s.pending.value, t, bar) else s.acc;
    var b := AfterStop(a, p.stopOffset, t, bar);
    SignalStep(p, s, t, a);
    StopStep(p, a, s.positions, s.signals, t, b);
    GoodSizes(p, b, s.positions + [b.position], s.signals, t + 1);
    var s' := StepBar(p, s, t);
    if s'.halt.Running? {
      SignalsGrow(p, b, s'.positions, s.signals, t + 1, s'.signals[t]);
      assert s'.signals == s.signals + [s'.signals[t]];
    }
  }

  lemma GoodSizes(p: Setup, a: Account, positions: seq<int>, signals: seq<int>, t: nat)
    requires p.Valid() && t <= p.N() && Good(p, a, positions, signals, t)
    ensures |positions| == t
  {
  }

  lemma StartIsGood(p: Setup)
    requires p.Valid()
    ensures Inv(p, StateAt(p, 0), 0)
  {
  }

  /** On every run, after every bar, the account, the positions and the signals agree. */
  lemma {:induction false} RunsAreGood(p: Setup, t: nat)
    requires p.Valid() && t <= p.N()
    ensures var s := StateAt(p, t);
      if s.halt.Running? then Inv(p, s, t)
      else |s.positions| <= t && Good(p, s.acc, s.positions, s.signals, |s.positions|)
  {
    hide Inv, Good, StepBar;
    if t > 0 {
      RunsAreGood(p, t - 1);
      if StateAt(p, t - 1).halt.Running? {
        BarStep(p, StateAt(p, t - 1), t - 1);
      } else {
        HaltedStays(p, t - 1, t);
      }
    } else {
      StartIsGood(p);
    }
  }
}

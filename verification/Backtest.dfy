/**
 The backtest of `crates/backtest/src/runner.rs` and the totals of its report
 (`crates/backtest/src/report.rs`). The strategy is any function; ids are numbered
 in the order of the trades.
 */
module Backtest {
  import opened RealArith
  import opened Sizing
  import opened Wrappers
  import D = Drawdown

  datatype ExitReason = SlHit | TpHit | StrategyExit

  datatype Trade = Trade(
    id: nat, strategy: string, pair: string, direction: Direction, entryPrice: real, quantity: real,
    stopLoss: real, takeProfit: Option<real>, closed: bool, exitPrice: Option<real>, pnl: Option<real>,
    exitReason: Option<ExitReason>)

  datatype Signal = Signal(
    strategy: string, pair: string, direction: Direction, allocationPct: real, stopLossPct: real, takeProfitPct: Option<real>)

  datatype Candle = Candle(high: real, low: real, close: real)

  datatype Exit = Exit(tradeId: nat, closePrice: real)

  datatype Settings = Settings(sizer: PositionSizer, leverage: real, liquidationLevel: real, spreadPct: real)

  // ------------------------------------------------------------------- prices

  function WithSpread(price: real, spreadPct: real, isBuy: bool): real {
    if isBuy then price * (1.0 + spreadPct) else price * (1.0 - spreadPct)
  }

  /** The result of a trade closed at the raw price `exit`. */
  function PnlAt(t: Trade, exit: real, spreadPct: real): real {
    WholeResult(PriceDiff(t, WithSpread(exit, spreadPct, t.direction.Short?)), t.quantity)
  }

  function WholeResult(perUnit: real, quantity: real): real { Truncate(perUnit * quantity) }

  function PriceDiff(t: Trade, exit: real): real {
    if t.direction.Long? then exit - t.entryPrice else t.entryPrice - exit
  }

  function ClosedAt(t: Trade, exit: real, spreadPct: real, reason: ExitReason): Trade {
    t.(closed := true, exitPrice := Some(WithSpread(exit, spreadPct, t.direction.Short?)),
       pnl := Some(PnlAt(t, exit, spreadPct)), exitReason := Some(reason))
  }

  /** Opening and closing at one raw price never gains. */
  lemma SpreadIsPaid(t: Trade, raw: real, spreadPct: real)
    requires raw > 0.0 && spreadPct >= 0.0 && t.quantity > 0.0
    requires t.entryPrice == WithSpread(raw, spreadPct, t.direction.Long?)
    ensures PnlAt(t, raw, spreadPct) <= 0.0
  {
    var price := WithSpread(raw, spreadPct, t.direction.Short?);
    var diff := PriceDiff(t, price);
    assert diff == -(2.0 * (raw * spreadPct)) by {
      assert raw * (1.0 + spreadPct) == raw + raw * spreadPct && raw * (1.0 - spreadPct) == raw - raw * spreadPct;
    }
    MulLeq(0.0, raw, spreadPct);
    MulLeq(diff, 0.0, t.quantity);
  }

  /** What a round trip from `raw` to `exit` brings per unit: the move in the direction, less the spread of both prices. */
  function MoveLessSpread(d: Direction, raw: real, exit: real, spreadPct: real): real {
    (if d.Long? then exit - raw else raw - exit) - spreadPct * (raw + exit)
  }

  lemma PricesWithSpread(d: Direction, raw: real, exit: real, spreadPct: real)
    ensures var entry, out := WithSpread(raw, spreadPct, d.Long?), WithSpread(exit, spreadPct, d.Short?);
      (if d.Long? then out - entry else entry - out) == MoveLessSpread(d, raw, exit, spreadPct)
  {
    assert raw * (1.0 + spreadPct) == raw + spreadPct * raw && raw * (1.0 - spreadPct) == raw - spreadPct * raw;
    assert exit * (1.0 + spreadPct) == exit + spreadPct * exit && exit * (1.0 - spreadPct) == exit - spreadPct * exit;
    assert spreadPct * (raw + exit) == spreadPct * raw + spreadPct * exit;
  }

  ghost predicate IsResultOf(pnl: real, perUnit: real, quantity: real) { IsWholePart(pnl, perUnit * quantity) }

  /** The result of a round trip is the whole part of that, for the whole quantity. */
  lemma ResultOfARoundTrip(t: Trade, raw: real, exit: real, spreadPct: real)
    requires t.entryPrice == WithSpread(raw, spreadPct, t.direction.Long?)
    ensures IsResultOf(PnlAt(t, exit, spreadPct), MoveLessSpread(t.direction, raw, exit, spreadPct), t.quantity)
  {
    PricesWithSpread(t.direction, raw, exit, spreadPct);
    ResultIsWhole(MoveLessSpread(t.direction, raw, exit, spreadPct), t.quantity);
    hide WithSpread, MoveLessSpread, WholeResult, IsResultOf;
  }

  lemma ResultIsWhole(perUnit: real, quantity: real)
    ensures IsResultOf(WholeResult(perUnit, quantity), perUnit, quantity)
  {
    hide Truncate, IsWholePart;
    TruncateIsTheWholePart(perUnit * quantity);
  }

  /** The stop is looked at before the target, for a candle that reaches both. */
  function FixedExitFor(t: Trade, c: Candle): Option<(ExitReason, real)> {
    if t.direction.Long? then
      if c.low <= t.stopLoss then Some((SlHit, t.stopLoss))
      else if t.takeProfit.Some? && c.high >= t.takeProfit.value then Some((TpHit, t.takeProfit.value))
      else None
    else
      if c.high >= t.stopLoss then Some((SlHit, t.stopLoss))
      else if t.takeProfit.Some? && c.low <= t.takeProfit.value then Some((TpHit, t.takeProfit.value))
      else None
  }

  // -------------------------------------------------------------- the trade list

  /** The results of the closed trades of a list, in order. */
  function PnlsOf(trades: seq<Trade>): seq<real> {
    if trades == [] then []
    else
      var t := trades[|trades| - 1];
      PnlsOf(trades[..|trades| - 1])
      + if t.closed then [if t.pnl.Some? then t.pnl.value else 0.0] else []
  }

  lemma PnlsOfNext(trades: seq<Trade>, t: Trade)
    ensures PnlsOf(trades + [t]) == PnlsOf(trades) + if t.closed then [if t.pnl.Some? then t.pnl.value else 0.0] else []
    ensures Sum(PnlsOf(trades + [t]))
         == Sum(PnlsOf(trades)) + if t.closed then if t.pnl.Some? then t.pnl.value else 0.0 else 0.0
  {
    assert (trades + [t])[..|trades|] == trades;
    var p := PnlsOf(trades);
    if t.closed {
      var x := if t.pnl.Some? then t.pnl.value else 0.0;
      assert (p + [x])[..|p|] == p;
    } else {
      assert p + [] == p;
    }
  }

  /** No two open trades are of the same strategy and pair. */
  ghost predicate OnePerStrategy(positions: map<nat, Trade>) {
    forall i, j | i in positions && j in positions
      && positions[i].strategy == positions[j].strategy && positions[i].pair == positions[j].pair :: i == j
  }

  /** The open trades are listed under their own ids, which have been given out. */
  ghost predicate OpenListed(positions: map<nat, Trade>, nextId: nat, trades: seq<Trade>) {
    forall id | id in positions :: id < nextId && positions[id].id == id && !positions[id].closed && positions[id] in trades
  }

  /** The listed trades have ids that have been given out, and a closed one is not open any more. */
  ghost predicate ClosedListed(positions: map<nat, Trade>, nextId: nat, trades: seq<Trade>) {
    forall k | 0 <= k < |trades| ::
      trades[k].id < nextId && (trades[k].closed ==> trades[k].pnl.Some? && trades[k].id !in positions)
  }

  /** A trade is listed once as open and at most once as closed. */
  ghost predicate ListedOnce(trades: seq<Trade>) {
    forall j, k | 0 <= j < k < |trades| && trades[j].closed == trades[k].closed :: trades[j].id != trades[k].id
  }

  /** What a run keeps, with the balance: the initial one plus the results of the closed trades. */
  ghost predicate Books(positions: map<nat, Trade>, nextId: nat, trades: seq<Trade>, balance: real, initial: real) {
    && OpenListed(positions, nextId, trades)
    && ClosedListed(positions, nextId, trades)
    && ListedOnce(trades)
    && OnePerStrategy(positions)
    && balance == initial + Sum(PnlsOf(trades))
  }

  lemma ListedOnceNext(trades: seq<Trade>, t: Trade)
    requires ListedOnce(trades) && forall k | 0 <= k < |trades| && trades[k].closed == t.closed :: trades[k].id != t.id
    ensures ListedOnce(trades + [t])
  {
  }

  lemma BooksAfterClose(positions: map<nat, Trade>, nextId: nat, trades: seq<Trade>, balance: real, initial: real, t: Trade)
    requires Books(positions, nextId, trades, balance, initial)
    requires t.id in positions && t.closed && t.pnl.Some?
    ensures Books(positions - {t.id}, nextId, trades + [t], balance + t.pnl.value, initial)
  {
    PnlsOfNext(trades, t);
    assert ListedOnce(trades + [t]) by {
      ListedOnceNext(trades, t);
    }
    hide ListedOnce, PnlsOf, Sum, OpenListed, ClosedListed;
    OpenListedLess(positions, nextId, trades, t);
    ClosedListedNext(positions, nextId, trades, t);
  }

  lemma OpenListedLess(positions: map<nat, Trade>, nextId: nat, trades: seq<Trade>, t: Trade)
    requires OpenListed(positions, nextId, trades) && t.id in positions
    ensures OpenListed(positions - {t.id}, nextId, trades + [t]) && t.id < nextId
  {
  }

  lemma ClosedListedNext(positions: map<nat, Trade>, nextId: nat, trades: seq<Trade>, t: Trade)
    requires ClosedListed(positions, nextId, trades) && t.pnl.Some? && t.id < nextId
    ensures ClosedListed(positions - {t.id}, nextId, trades + [t])
  {
  }

  lemma BooksAfterOpen(positions: map<nat, Trade>, nextId: nat, trades: seq<Trade>, balance: real, initial: real, t: Trade)
    requires Books(positions, nextId, trades, balance, initial)
    requires t.id == nextId && !t.closed
    requires forall id | id in positions :: positions[id].strategy != t.strategy || positions[id].pair != t.pair
    ensures Books(positions[t.id := t], nextId + 1, trades + [t], balance, initial)
  {
    PnlsOfNext(trades, t);
    assert ListedOnce(trades + [t]) by {
      ListedOnceNext(trades, t);
    }
    hide ListedOnce, PnlsOf, Sum, OpenListed;
    OpenListedNext(positions, nextId, trades, t);
    assert OnePerStrategy(positions[t.id := t]);
    assert ClosedListed(positions[t.id := t], nextId + 1, trades + [t]);
  }

  lemma OpenListedNext(positions: map<nat, Trade>, nextId: nat, trades: seq<Trade>, t: Trade)
    requires OpenListed(positions, nextId, trades) && t.id == nextId && !t.closed
    ensures OpenListed(positions[t.id := t], nextId + 1, trades + [t])
  {
  }

  // ------------------------------------------------------- one candle, on values

  datatype Ledger = Ledger(balance: real, positions: map<nat, Trade>, nextId: nat, trades: seq<Trade>)

  function CloseOn(s: Ledger, id: nat, exit: real, spreadPct: real, reason: ExitReason): Ledger
    requires id in s.positions
  {
    var t := ClosedAt(s.positions[id], exit, spreadPct, reason);
    Ledger(s.balance + t.pnl.value, s.positions - {id}, s.nextId, s.trades + [t])
  }

  /** The trades `ids` of the pair closed, one after the other, where the candle reaches their stop or target. */
  function FixedExitsOn(s: Ledger, pair: string, c: Candle, spreadPct: real, ids: seq<nat>): Ledger {
    if ids == [] then s
    else
      var r, id := FixedExitsOn(s, pair, c, spreadPct, ids[..|ids| - 1]), ids[|ids| - 1];
      if id in r.positions && r.positions[id].pair == pair && FixedExitFor(r.positions[id], c).Some? then
        var exit := FixedExitFor(r.positions[id], c).value;
        CloseOn(r, id, exit.1, spreadPct, exit.0)
      else r
  }

  function TakeProfit(direction: Direction, entry: real, pct: real): real {
    if direction.Long? then entry * (1.0 + pct) else entry * (1.0 - pct)
  }

  /** Whether the candle closes a trade of the pair. */
  predicate Hit(t: Trade, pair: string, c: Candle) { t.pair == pair && FixedExitFor(t, c).Some? }

  /**
   A candle closes a trade of its pair at the stop exactly when it reaches the stop,
   and at the target exactly when it reaches that and not the stop. A long's stop is
   reached from above and its target from below, and a short's the other way.
   */
  lemma WhereACandleCloses(t: Trade, pair: string, c: Candle)
    ensures var stopped := if t.direction.Long? then c.low <= t.stopLoss else c.high >= t.stopLoss;
      var won := t.takeProfit.Some?
        && if t.direction.Long? then c.high >= t.takeProfit.value else c.low <= t.takeProfit.value;
      && (Hit(t, pair, c) <==> t.pair == pair && (stopped || won))
      && (Hit(t, pair, c) ==>
            FixedExitFor(t, c) == Some(if stopped then (SlHit, t.stopLoss) else (TpHit, t.takeProfit.value)))
  {
  }

  /** A target is set as the stop of the other direction would be. */
  lemma TargetMirrorsTheStop(d: Direction, entry: real, pct: real)
    ensures TakeProfit(d, entry, pct) == StopLoss(if d.Long? then Short else Long, entry, pct)
    ensures TakeProfit(d, entry, pct) - entry == (if d.Long? then pct * entry else -(pct * entry))
    ensures StopLoss(d, entry, pct) - entry == (if d.Long? then -(pct * entry) else pct * entry)
  {
    assert entry * (1.0 + pct) == entry + pct * entry && entry * (1.0 - pct) == entry - pct * entry;
  }

  /** Exactly the listed trades that are hit are closed, and nothing else changes. */
  lemma {:induction false} FixedExitsCloseTheHit(s: Ledger, pair: string, c: Candle, spreadPct: real, ids: seq<nat>)
    ensures var r := FixedExitsOn(s, pair, c, spreadPct, ids);
      && r.nextId == s.nextId && s.trades <= r.trades
      && forall id :: (id in r.positions <==> id in s.positions && !(id in ids && Hit(s.positions[id], pair, c)))
                      && (id in r.positions ==> r.positions[id] == s.positions[id])
  {
    hide FixedExitFor, ClosedAt;
    if ids != [] {
      var n := |ids| - 1;
      FixedExitsCloseTheHit(s, pair, c, spreadPct, ids[..n]);
      assert ids == ids[..n] + [ids[n]];
    }
  }

  /** A closed trade records the raw price moved by the spread against it, its result there, and the reason. */
  lemma WhatACloseRecords(t: Trade, exit: real, spreadPct: real, reason: ExitReason)
    ensures var c := ClosedAt(t, exit, spreadPct, reason);
      var out := if t.direction.Long? then exit - spreadPct * exit else exit + spreadPct * exit;
      && c == t.(closed := true, exitPrice := Some(out), pnl := c.pnl, exitReason := Some(reason))
      && c.pnl.Some?
      && IsResultOf(c.pnl.value, if t.direction.Long? then out - t.entryPrice else t.entryPrice - out, t.quantity)
  {
    hide Truncate, IsWholePart;
    var price := WithSpread(exit, spreadPct, t.direction.Short?);
    assert exit * (1.0 + spreadPct) == exit + spreadPct * exit && exit * (1.0 - spreadPct) == exit - spreadPct * exit;
    ResultIsWhole(PriceDiff(t, price), t.quantity);
    hide IsResultOf, WholeResult;
  }

  /** `x` records the close of an open trade `id` where the candle reaches its stop or target. */
  ghost predicate IsExitOf(x: Trade, id: nat, s: Ledger, pair: string, c: Candle, spreadPct: real) {
    && id in s.positions && Hit(s.positions[id], pair, c)
    && x == ClosedAt(s.positions[id], FixedExitFor(s.positions[id], c).value.1, spreadPct, FixedExitFor(s.positions[id], c).value.0)
  }

  /** `hit` are the hit trades of the list, and `r` records their closes in that order. */
  ghost predicate RecordsTheHit(
      s: Ledger, pair: string, c: Candle, spreadPct: real, ids: seq<nat>, hit: seq<nat>, trades: seq<Trade>)
  {
    && (forall id :: id in hit <==> id in ids && id in s.positions && Hit(s.positions[id], pair, c))
    && |trades| == |s.trades| + |hit|
    && forall k | 0 <= k < |hit| :: IsExitOf(trades[|s.trades| + k], hit[k], s, pair, c, spreadPct)
  }

  lemma OneMoreRecorded(
      s: Ledger, pair: string, c: Candle, spreadPct: real, ids: seq<nat>, id: nat, hit: seq<nat>, trades: seq<Trade>, x: Trade)
    requires RecordsTheHit(s, pair, c, spreadPct, ids, hit, trades) && IsExitOf(x, id, s, pair, c, spreadPct)
    ensures RecordsTheHit(s, pair, c, spreadPct, ids + [id], hit + [id], trades + [x])
  {
    hide Hit, FixedExitFor, ClosedAt;
  }

  lemma NoMoreRecorded(
      s: Ledger, pair: string, c: Candle, spreadPct: real, ids: seq<nat>, id: nat, hit: seq<nat>, trades: seq<Trade>)
    requires RecordsTheHit(s, pair, c, spreadPct, ids, hit, trades) && !(id in s.positions && Hit(s.positions[id], pair, c))
    ensures RecordsTheHit(s, pair, c, spreadPct, ids + [id], hit, trades)
  {
    hide Hit, IsExitOf;
  }

  /** The trades that are recorded are the hit ones of the list, each once and in its order. */
  lemma {:induction false} FixedExitsRecordTheHit(s: Ledger, pair: string, c: Candle, spreadPct: real, ids: seq<nat>)
    returns (hit: seq<nat>)
    requires forall j, k | 0 <= j < k < |ids| :: ids[j] != ids[k]
    ensures RecordsTheHit(s, pair, c, spreadPct, ids, hit, FixedExitsOn(s, pair, c, spreadPct, ids).trades)
  {
    hide FixedExitFor, ClosedAt, RecordsTheHit;
    hit := [];
    if ids == [] {
      NothingRecorded(s, pair, c, spreadPct);
    } else {
      var n := |ids| - 1;
      var front, id := ids[..n], ids[n];
      hit := FixedExitsRecordTheHit(s, pair, c, spreadPct, front);
      FixedExitsCloseTheHit(s, pair, c, spreadPct, front);
      assert ids == front + [id] && id !in front;
      var r, t := FixedExitsOn(s, pair, c, spreadPct, front).trades, FixedExitsOn(s, pair, c, spreadPct, ids).trades;
      if id in s.positions && Hit(s.positions[id], pair, c) {
        OneMoreRecorded(s, pair, c, spreadPct, front, id, hit, r, t[|r|]);
        hit := hit + [id];
      } else {
        NoMoreRecorded(s, pair, c, spreadPct, front, id, hit, r);
      }
    }
  }

  lemma NothingRecorded(s: Ledger, pair: string, c: Candle, spreadPct: real)
    ensures RecordsTheHit(s, pair, c, spreadPct, [], [], s.trades)
  {
  }

  lemma FixedExitsStart(s: Ledger, pair: string, c: Candle, spreadPct: real)
    ensures FixedExitsOn(s, pair, c, spreadPct, []) == s
  {
  }

  lemma FixedExitsNext(s: Ledger, pair: string, c: Candle, spreadPct: real, ids: seq<nat>, n: nat)
    requires n < |ids|
    ensures var r, id := FixedExitsOn(s, pair, c, spreadPct, ids[..n]), ids[n];
      FixedExitsOn(s, pair, c, spreadPct, ids[..n + 1]) ==
        if id in r.positions && r.positions[id].pair == pair && FixedExitFor(r.positions[id], c).Some? then
          var exit := FixedExitFor(r.positions[id], c).value;
          CloseOn(r, id, exit.1, spreadPct, exit.0)
        else r
  {
    assert ids[..n + 1][..n] == ids[..n];
  }

  /** The trade that a signal opens at the raw price with the spread, for the quantity of the sizer. */
  function NewTrade(settings: Settings, balance: real, id: nat, signal: Signal, rawPrice: real): Option<Trade>
    requires settings.sizer.Valid()
  {
    var entry := WithSpread(rawPrice, settings.spreadPct, signal.direction.Long?);
    var q := settings.sizer.CalculateQuantity(signal.pair,
      Request(balance, entry, settings.leverage, signal.allocationPct, signal.stopLossPct, settings.liquidationLevel));
    var target := match signal.takeProfitPct
      case Some(pct) => Some(TakeProfit(signal.direction, entry, pct))
      case None => None;
    if q.None? then None
    else Some(Trade(id, signal.strategy, signal.pair, signal.direction, entry, q.value,
                    StopLoss(signal.direction, entry, signal.stopLossPct), target, false, None, None, None))
  }

  /** Whether a strategy has an open trade of a pair. */
  predicate HasPosition(positions: map<nat, Trade>, signal: Signal) {
    exists id | id in positions :: positions[id].strategy == signal.strategy && positions[id].pair == signal.pair
  }

  /** The ledger after a signal, and the failed executions it adds. */
  function EntryOn(settings: Settings, s: Ledger, signal: Option<Signal>, rawPrice: real): (Ledger, nat)
    requires settings.sizer.Valid()
  {
    if signal.None? || HasPosition(s.positions, signal.value) then (s, 0)
    else
      var t := NewTrade(settings, s.balance, s.nextId, signal.value, rawPrice);
      if t.None? then (s, 1)
      else (Ledger(s.balance, s.positions[s.nextId := t.value], s.nextId + 1, s.trades + [t.value]), 0)
  }

  /**
   A signal opens its trade under the next id exactly when the strategy has none of
   the pair and the sizer gives a quantity; without a quantity it counts a failure.
   */
  lemma WhatASignalDoes(settings: Settings, s: Ledger, signal: Option<Signal>, rawPrice: real)
    requires settings.sizer.Valid()
    ensures var (r, failures) := EntryOn(settings, s, signal, rawPrice);
      var free := signal.Some? && forall id | id in s.positions ::
        s.positions[id].strategy != signal.value.strategy || s.positions[id].pair != signal.value.pair;
      var t := if free then NewTrade(settings, s.balance, s.nextId, signal.value, rawPrice) else None;
      && r.balance == s.balance
      && failures == (if free && t.None? then 1 else 0)
      && r.trades == s.trades + (if t.Some? then [t.value] else [])
      && r.positions == (if t.Some? then s.positions[s.nextId := t.value] else s.positions)
      && r.nextId == (if t.Some? then s.nextId + 1 else s.nextId)
  {
    hide NewTrade;
  }

  /** The exits of the strategy in order; none for an exit of a trade that is not open. */
  function ExitsOn(s: Ledger, exits: seq<Exit>, spreadPct: real): Option<Ledger> {
    if exits == [] then Some(s)
    else
      var r, x := ExitsOn(s, exits[..|exits| - 1], spreadPct), exits[|exits| - 1];
      if r.None? || x.tradeId !in r.value.positions then None
      else Some(CloseOn(r.value, x.tradeId, x.closePrice, spreadPct, StrategyExit))
  }

  /** An exit that fails makes the whole list fail. */
  lemma {:induction false} ExitsFail(s: Ledger, exits: seq<Exit>, n: nat, spreadPct: real)
    requires n <= |exits| && ExitsOn(s, exits[..n], spreadPct).None?
    ensures ExitsOn(s, exits, spreadPct).None?
  {
    if n == |exits| {
      assert exits[..n] == exits;
    } else {
      var front := exits[..|exits| - 1];
      assert front[..n] == exits[..n];
      ExitsFail(s, front, n, spreadPct);
    }
  }

  /** Every exit names an open trade, and none names one that an earlier exit has closed. */
  predicate CanExit(positions: map<nat, Trade>, exits: seq<Exit>) {
    && (forall k | 0 <= k < |exits| :: exits[k].tradeId in positions)
    && forall j, k | 0 <= j < k < |exits| :: exits[j].tradeId != exits[k].tradeId
  }

  predicate IsNamed(exits: seq<Exit>, id: nat) { exists k | 0 <= k < |exits| :: exits[k].tradeId == id }

  /** Each exit has closed its trade at its price, in order, and the others are open as before. */
  ghost predicate ClosesEach(s: Ledger, exits: seq<Exit>, spreadPct: real, r: Ledger) {
    && r.nextId == s.nextId && |r.trades| == |s.trades| + |exits| && s.trades <= r.trades
    && (forall id :: id in r.positions <==> id in s.positions && !IsNamed(exits, id))
    && (forall id | id in r.positions :: r.positions[id] == s.positions[id])
    && forall k | 0 <= k < |exits| ::
      exits[k].tradeId in s.positions
      && r.trades[|s.trades| + k] == ClosedAt(s.positions[exits[k].tradeId], exits[k].closePrice, spreadPct, StrategyExit)
  }

  lemma NamedNext(exits: seq<Exit>, id: nat)
    requires exits != []
    ensures IsNamed(exits, id) <==> IsNamed(exits[..|exits| - 1], id) || exits[|exits| - 1].tradeId == id
  {
    var front := exits[..|exits| - 1];
    assert forall k | 0 <= k < |front| :: front[k] == exits[k];
  }

  lemma CanExitNext(positions: map<nat, Trade>, exits: seq<Exit>)
    requires exits != []
    ensures var n := |exits| - 1;
      CanExit(positions, exits) <==>
        CanExit(positions, exits[..n]) && exits[n].tradeId in positions && !IsNamed(exits[..n], exits[n].tradeId)
  {
    var front := exits[..|exits| - 1];
    assert forall k | 0 <= k < |front| :: front[k] == exits[k];
  }

  lemma ClosesOneMore(s: Ledger, exits: seq<Exit>, spreadPct: real, r: Ledger)
    requires exits != [] && ClosesEach(s, exits[..|exits| - 1], spreadPct, r) && exits[|exits| - 1].tradeId in r.positions
    ensures var x := exits[|exits| - 1]; ClosesEach(s, exits, spreadPct, CloseOn(r, x.tradeId, x.closePrice, spreadPct, StrategyExit))
  {
    hide ClosedAt, IsNamed;
    var n := |exits| - 1;
    var x := exits[n];
    var t := CloseOn(r, x.tradeId, x.closePrice, spreadPct, StrategyExit);
    forall id ensures id in t.positions <==> id in s.positions && !IsNamed(exits, id) {
      NamedNext(exits, id);
    }
    forall k | 0 <= k < |exits|
      ensures exits[k].tradeId in s.positions
      ensures t.trades[|s.trades| + k] == ClosedAt(s.positions[exits[k].tradeId], exits[k].closePrice, spreadPct, StrategyExit)
    {
      if k < n {
        assert exits[..n][k] == exits[k];
      }
    }
  }

  /** The exits fail exactly when one of them cannot be made; otherwise each closes its trade at its price, in order. */
  lemma {:induction false} ExitsCloseEach(s: Ledger, exits: seq<Exit>, spreadPct: real)
    ensures ExitsOn(s, exits, spreadPct).Some? <==> CanExit(s.positions, exits)
    ensures ExitsOn(s, exits, spreadPct).Some? ==> ClosesEach(s, exits, spreadPct, ExitsOn(s, exits, spreadPct).value)
  {
    if exits == [] {
      NothingToClose(s, spreadPct);
    } else {
      var n := |exits| - 1;
      ExitsCloseEach(s, exits[..n], spreadPct);
      CanExitNext(s.positions, exits);
      var r := ExitsOn(s, exits[..n], spreadPct);
      if r.Some? {
        OpenUnlessNamed(s, exits[..n], spreadPct, r.value, exits[n].tradeId);
        if exits[n].tradeId in r.value.positions {
          ClosesOneMore(s, exits, spreadPct, r.value);
        }
      }
      hide ClosesEach, CanExit, IsNamed, CloseOn;
    }
  }

  lemma OpenUnlessNamed(s: Ledger, exits: seq<Exit>, spreadPct: real, r: Ledger, id: nat)
    requires ClosesEach(s, exits, spreadPct, r)
    ensures id in r.positions <==> id in s.positions && !IsNamed(exits, id)
  {
  }

  lemma NothingToClose(s: Ledger, spreadPct: real)
    ensures CanExit(s.positions, []) && ClosesEach(s, [], spreadPct, s)
  {
  }

  /** `ids` lists the open trades, in any order. */
  ghost predicate Enumerates(ids: seq<nat>, positions: map<nat, Trade>) {
    (forall id :: id in ids <==> id in positions) && forall j, k | 0 <= j < k < |ids| :: ids[j] != ids[k]
  }

  /** The ledger when the strategy is asked for its exits. */
  function BeforeExits(settings: Settings, pair: string, c: Candle, signal: Option<Signal>, s: Ledger, ids: seq<nat>): Ledger
    requires settings.sizer.Valid()
  {
    EntryOn(settings, FixedExitsOn(s, pair, c, settings.spreadPct, ids), signal, c.close).0
  }

  /** A candle takes `s` to `after`, or fails when `after` is None: fixed exits, then an entry, then the strategy's exits. */
  ghost predicate CandleStep(settings: Settings, pair: string, c: Candle, x: Strategy, i: nat, s: Ledger, after: Option<Ledger>)
    requires settings.sizer.Valid()
  {
    exists ids, open ::
      && Enumerates(ids, s.positions)
      && Enumerates(open, BeforeExits(settings, pair, c, x.onPrice(i), s, ids).positions)
      && after == ExitsOn(BeforeExits(settings, pair, c, x.onPrice(i), s, ids), x.onOpenPositions(i, open), settings.spreadPct)
  }

  /** A strategy: what it signals at a candle, and which of the open trades it ends. */
  datatype Strategy = Strategy(onPrice: nat -> Option<Signal>, onOpenPositions: (nat, seq<nat>) -> seq<Exit>)

  // ------------------------------------------------------------------ the trader

  class SimTrader {
    const settings: Settings
    var balance: real
    var positions: map<nat, Trade>
    var nextId: nat

    constructor (settings: Settings, initial: real)
      ensures this.settings == settings && balance == initial && positions == map[] && nextId == 0
    {
      this.settings := settings;
      balance := initial;
      positions := map[];
      nextId := 0;
    }

    function Value(trades: seq<Trade>): Ledger
      reads this
    {
      Ledger(balance, positions, nextId, trades)
    }

    method Open(signal: Signal, rawPrice: real) returns (t: Option<Trade>)
      requires settings.sizer.Valid()
      modifies this
      ensures balance == old(balance)
      ensures t == NewTrade(settings, balance, old(nextId), signal, rawPrice)
      ensures if t.Some? then positions == old(positions)[old(nextId) := t.value] && nextId == old(nextId) + 1
              else positions == old(positions) && nextId == old(nextId)
    {
      hide NewTrade;
      t := NewTrade(settings, balance, nextId, signal, rawPrice);
      if t.Some? {
        positions := positions[nextId := t.value];
        nextId := nextId + 1;
      }
    }

    method Close(id: nat, reason: ExitReason, rawExit: real) returns (t: Option<Trade>)
      modifies this
      ensures nextId == old(nextId)
      ensures if id in old(positions) then
                && t == Some(ClosedAt(old(positions)[id], rawExit, settings.spreadPct, reason))
                && positions == old(positions) - {id} && balance == old(balance) + t.value.pnl.value
              else t == None && positions == old(positions) && balance == old(balance)
    {
      hide PnlAt;
      if id !in positions {
        return None;
      }
      var trade := positions[id];
      positions := positions - {id};
      var closed := ClosedAt(trade, rawExit, settings.spreadPct, reason);
      balance := balance + closed.pnl.value;
      return Some(closed);
    }

    /** The ids of the open trades, in an order that the source leaves open. */
    method OpenPositions() returns (ids: seq<nat>)
      ensures Enumerates(ids, positions)
    {
      ids := [];
      var rest := positions.Keys;
      while rest != {}
        invariant rest <= positions.Keys && forall id :: id in ids <==> id in positions.Keys - rest
        invariant forall j, k | 0 <= j < k < |ids| :: ids[j] != ids[k]
        decreases rest
      {
        var id :| id in rest;
        assert id !in ids;
        ids := ids + [id];
        rest := rest - {id};
      }
    }

    ghost predicate BooksOk(trades: seq<Trade>, initial: real)
      reads this
    {
      Books(positions, nextId, trades, balance, initial)
    }

    /** Closes the open trades that the candle hits, in some order, and never misses one. */
    method CloseHitFixedExits(pair: string, c: Candle, trades: seq<Trade>, ghost initial: real)
      returns (more: seq<Trade>, ghost ids: seq<nat>)
      requires BooksOk(trades, initial)
      modifies this
      ensures BooksOk(more, initial) && Enumerates(ids, old(positions))
      ensures Value(more) == FixedExitsOn(old(Value(trades)), pair, c, settings.spreadPct, ids)
      ensures forall id :: id in positions <==> id in old(positions) && !Hit(old(positions)[id], pair, c)
    {
      hide Books, FixedExitFor, ClosedAt, FixedExitsOn, Hit;
      more := trades;
      var open := OpenPositions();
      ids := open;
      ghost var start := Value(trades);
      FixedExitsStart(start, pair, c, settings.spreadPct);
      for n := 0 to |open|
        invariant BooksOk(more, initial)
        invariant Value(more) == FixedExitsOn(start, pair, c, settings.spreadPct, open[..n])
      {
        var id := open[n];
        FixedExitsCloseTheHit(start, pair, c, settings.spreadPct, open[..n]);
        assert id in open && id !in open[..n];
        FixedExitsNext(start, pair, c, settings.spreadPct, open, n);
        var t := positions[id];
        if t.pair != pair {
          continue;
        }
        var exit := FixedExitFor(t, c);
        if exit.None? {
          continue;
        }
        IdOf(positions, nextId, more, balance, initial, id);
        ghost var positions0, balance0 := positions, balance;
        var closed := Close(id, exit.value.0, exit.value.1);
        ClosedKeeps(t, exit.value.1, settings.spreadPct, exit.value.0);
        BooksAfterClose(positions0, nextId, more, balance0, initial, closed.value);
        more := more + [closed.value];
      }
      assert open[..|open|] == open;
      FixedExitsCloseTheHit(start, pair, c, settings.spreadPct, open);
    }

    method TryOpenNewEntry(signal: Option<Signal>, price: real, trades: seq<Trade>, failures: nat, ghost initial: real)
      returns (more: seq<Trade>, failures': nat)
      requires BooksOk(trades, initial) && settings.sizer.Valid()
      modifies this
      ensures BooksOk(more, initial) && trades <= more
      ensures (Value(more), failures' - failures) == EntryOn(settings, old(Value(trades)), signal, price)
    {
      hide Books, NewTrade;
      more, failures' := trades, failures;
      if signal.None? {
        return;
      }
      var ids := OpenPositions();
      for n := 0 to |ids|
        invariant forall k | 0 <= k < n ::
          positions[ids[k]].strategy != signal.value.strategy || positions[ids[k]].pair != signal.value.pair
      {
        assert ids[n] in ids;
        if positions[ids[n]].strategy == signal.value.strategy && positions[ids[n]].pair == signal.value.pair {
          return;
        }
      }
      assert !HasPosition(positions, signal.value) by {
        forall id | id in positions
          ensures positions[id].strategy != signal.value.strategy || positions[id].pair != signal.value.pair
        {
          assert id in ids;
        }
      }
      ghost var positions0, nextId0 := positions, nextId;
      var entry := Open(signal.value, price);
      match entry {
        case Some(t) =>
          NewTradeIs(settings, balance, nextId0, signal.value, price);
          BooksAfterOpen(positions0, nextId0, trades, balance, initial, t);
          more := trades + [t];
        case None => failures' := failures + 1;
      }
    }

    /** Fails exactly when the strategy names a trade that is not open. */
    method CloseStrategyDrivenExits(exits: seq<Exit>, trades: seq<Trade>, ghost initial: real)
      returns (ok: bool, more: seq<Trade>)
      requires BooksOk(trades, initial)
      modifies this
      ensures BooksOk(more, initial) && trades <= more
      ensures (if ok then Some(Value(more)) else None) == ExitsOn(old(Value(trades)), exits, settings.spreadPct)
    {
      hide Books, ClosedAt;
      more := trades;
      ghost var start := Value(trades);
      for n := 0 to |exits|
        invariant BooksOk(more, initial) && trades <= more
        invariant ExitsOn(start, exits[..n], settings.spreadPct) == Some(Value(more))
      {
        assert exits[..n + 1][..n] == exits[..n] && exits[..n + 1][n] == exits[n];
        var id := exits[n].tradeId;
        if id in positions {
          IdOf(positions, nextId, more, balance, initial, id);
          ClosedKeeps(positions[id], exits[n].closePrice, settings.spreadPct, StrategyExit);
        }
        ghost var positions0, balance0 := positions, balance;
        var closed := Close(id, StrategyExit, exits[n].closePrice);
        if closed.None? {
          ExitsFail(start, exits, n + 1, settings.spreadPct);
          return false, more;
        }
        BooksAfterClose(positions0, nextId, more, balance0, initial, closed.value);
        more := more + [closed.value];
      }
      assert exits[..|exits|] == exits;
      return true, more;
    }
  }

  /**
   A signal opens a trade at the raw price moved by the spread against it, for the
   quantity that the sizer gives at that price, with its stop and its target as far
   from it as the signal says. It opens none exactly when the sizer gives none.
   */
  lemma WhatASignalOpens(settings: Settings, balance: real, id: nat, signal: Signal, rawPrice: real)
    requires settings.sizer.Valid()
    ensures var entry := WithSpread(rawPrice, settings.spreadPct, signal.direction.Long?);
      var q := settings.sizer.CalculateQuantity(signal.pair,
        Request(balance, entry, settings.leverage, signal.allocationPct, signal.stopLossPct, settings.liquidationLevel));
      var t := NewTrade(settings, balance, id, signal, rawPrice);
      && (t.None? <==> q.None?)
      && (t.Some? ==>
            && var x := t.value;
            && x.id == id && x.strategy == signal.strategy && x.pair == signal.pair && x.direction == signal.direction
            && x.entryPrice == entry && x.quantity == q.value
            && x.stopLoss == StopLoss(x.direction, entry, signal.stopLossPct)
            && (x.takeProfit.Some? <==> signal.takeProfitPct.Some?)
            && (x.takeProfit.Some? ==> x.takeProfit.value == TakeProfit(x.direction, entry, signal.takeProfitPct.value))
            && !x.closed && x.exitPrice.None? && x.pnl.None? && x.exitReason.None?)
  {
    hide PositionSizer.CalculateQuantity, WithSpread, StopLoss, TakeProfit;
  }

  lemma NewTradeIs(settings: Settings, balance: real, id: nat, signal: Signal, rawPrice: real)
    requires settings.sizer.Valid() && NewTrade(settings, balance, id, signal, rawPrice).Some?
    ensures var t := NewTrade(settings, balance, id, signal, rawPrice).value;
      t.id == id && !t.closed && t.strategy == signal.strategy && t.pair == signal.pair
  {
  }

  lemma IdOf(positions: map<nat, Trade>, nextId: nat, trades: seq<Trade>, balance: real, initial: real, id: nat)
    requires Books(positions, nextId, trades, balance, initial) && id in positions
    ensures positions[id].id == id
  {
  }

  lemma ClosedKeeps(t: Trade, exit: real, spreadPct: real, reason: ExitReason)
    ensures var c := ClosedAt(t, exit, spreadPct, reason); c.id == t.id && c.closed && c.pnl.Some?
  {
  }

  // -------------------------------------------------------------------- whole runs

  /** The ledgers before and after each candle. */
  ghost predicate Steps(settings: Settings, pair: string, candles: seq<Candle>, x: Strategy, steps: seq<Ledger>)
    requires settings.sizer.Valid()
  {
    && 0 < |steps| <= |candles| + 1
    && forall i: nat | i < |steps| - 1 :: CandleStep(settings, pair, candles[i], x, i, steps[i], Some(steps[i + 1]))
  }

  /**
   A run takes the candles one after the other and ends at the first candle that
   fails. It lists every trade once when it opens and at most once when it closes,
   and its final balance is the initial one plus the results.
   */
  method Run(settings: Settings, pair: string, candles: seq<Candle>, strategy: Strategy, initial: real)
    returns (r: Option<Report>, trades: seq<Trade>, trader: SimTrader, ghost steps: seq<Ledger>)
    requires settings.sizer.Valid()
    ensures Steps(settings, pair, candles, strategy, steps) && steps[0] == Ledger(initial, map[], 0, [])
    ensures if r.Some? then |steps| == |candles| + 1 && steps[|candles|] == trader.Value(trades)
            else |steps| <= |candles| && CandleStep(settings, pair, candles[|steps| - 1], strategy, |steps| - 1, steps[|steps| - 1], None)
    ensures Books(trader.positions, trader.nextId, trades, trader.balance, initial)
    ensures r.Some? ==>
      && r.value.initialBalance == initial && r.value.finalBalance == trader.balance
      && r.value.finalBalance == r.value.initialBalance + r.value.totalPnl
      && r.value.grossProfit - r.value.grossLoss == r.value.totalPnl
      && D.IsDrawdown(PnlsOf(trades), r.value.maxDrawdown)
  {
    hide Books, EntryOn, ExitsOn, FixedExitsOn, Enumerates;
    trader := new SimTrader(settings, initial);
    trades := [];
    var failures: nat := 0;
    steps := [trader.Value(trades)];
    NoTradesYet(initial);
    for i := 0 to |candles|
      invariant fresh(trader) && trader.BooksOk(trades, initial) && trader.settings == settings
      invariant |steps| == i + 1 && steps[i] == trader.Value(trades) && steps[0] == Ledger(initial, map[], 0, [])
      invariant Steps(settings, pair, candles, strategy, steps)
    {
      ghost var s := trader.Value(trades);
      ghost var ids;
      trades, ids := trader.CloseHitFixedExits(pair, candles[i], trades, initial);
      trades, failures := trader.TryOpenNewEntry(strategy.onPrice(i), candles[i].close, trades, failures, initial);
      ghost var m := BeforeExits(settings, pair, candles[i], strategy.onPrice(i), s, ids);
      var open := trader.OpenPositions();
      var ok;
      ok, trades := trader.CloseStrategyDrivenExits(strategy.onOpenPositions(i, open), trades, initial);
      StepBy(settings, pair, candles[i], strategy, i, s, ids, open);
      if !ok {
        return None, trades, trader, steps;
      }
      steps := steps + [trader.Value(trades)];
    }
    var report := FromTrades(trades, initial, trader.balance, failures);
    BalanceIs(trader.positions, trader.nextId, trades, trader.balance, initial);
    r := Some(report);
  }

  lemma StepBy(settings: Settings, pair: string, c: Candle, x: Strategy, i: nat, s: Ledger, ids: seq<nat>, open: seq<nat>)
    requires settings.sizer.Valid() && Enumerates(ids, s.positions)
    requires Enumerates(open, BeforeExits(settings, pair, c, x.onPrice(i), s, ids).positions)
    ensures CandleStep(settings, pair, c, x, i, s,
      ExitsOn(BeforeExits(settings, pair, c, x.onPrice(i), s, ids), x.onOpenPositions(i, open), settings.spreadPct))
  {
    hide Enumerates, BeforeExits, ExitsOn;
  }

  lemma NoTradesYet(initial: real)
    ensures Books(map[], 0, [], initial, initial)
  {
  }

  lemma BalanceIs(positions: map<nat, Trade>, nextId: nat, trades: seq<Trade>, balance: real, initial: real)
    requires Books(positions, nextId, trades, balance, initial)
    ensures balance == initial + Sum(PnlsOf(trades))
  {
  }

  // --------------------------------------------------------------------- the report

  datatype Report = Report(
    totalTrades: nat, wins: nat, losses: nat, executionFailures: nat, totalPnl: real, maxDrawdown: real,
    initialBalance: real, finalBalance: real, grossProfit: real, grossLoss: real)

  function CountPositive(xs: seq<real>): (n: nat)
    ensures n <= |xs|
  {
    if xs == [] then 0 else CountPositive(xs[..|xs| - 1]) + if xs[|xs| - 1] > 0.0 then 1 else 0
  }

  function Gross(xs: seq<real>, sign: real): real {
    if xs == [] then 0.0
    else Gross(xs[..|xs| - 1], sign) + if xs[|xs| - 1] * sign > 0.0 then xs[|xs| - 1] * sign else 0.0
  }

  lemma {:induction false} GrossIsTotal(xs: seq<real>)
    ensures Gross(xs, 1.0) - Gross(xs, -1.0) == Sum(xs)
  {
    if xs != [] {
      GrossIsTotal(xs[..|xs| - 1]);
    }
  }

  method FromTrades(trades: seq<Trade>, initial: real, final: real, failures: nat) returns (r: Report)
    ensures r.totalTrades == |PnlsOf(trades)| == r.wins + r.losses && r.wins == CountPositive(PnlsOf(trades))
    ensures r.totalPnl == Sum(PnlsOf(trades)) == r.grossProfit - r.grossLoss
    ensures r.grossProfit >= 0.0 && r.grossLoss >= 0.0
    ensures D.IsDrawdown(PnlsOf(trades), r.maxDrawdown)
    ensures r.initialBalance == initial && r.finalBalance == final && r.executionFailures == failures
  {
    var pnls := PnlsOf(trades);
    var wins := CountPositive(pnls);
    var maxDd := D.OfBacktest(pnls, initial);
    GrossIsTotal(pnls);
    GrossIsPositive(pnls, 1.0);
    GrossIsPositive(pnls, -1.0);
    r := Report(|pnls|, wins, |pnls| - wins, failures, Sum(pnls), maxDd, initial, final, Gross(pnls, 1.0), Gross(pnls, -1.0));
  }

  /** The sum of the sizes of the results. */
  function TotalSize(xs: seq<real>): real {
    if xs == [] then 0.0 else TotalSize(xs[..|xs| - 1]) + Abs(xs[|xs| - 1])
  }

  /** Profit and loss together are the sizes of all the results, and a win is a positive result. */
  lemma {:induction false} ProfitAndLossAre(xs: seq<real>)
    ensures Gross(xs, 1.0) + Gross(xs, -1.0) == TotalSize(xs)
    ensures CountPositive(xs) == |set i | 0 <= i < |xs| && xs[i] > 0.0|
  {
    if xs != [] {
      var n := |xs| - 1;
      ProfitAndLossAre(xs[..n]);
      var s, t := set i | 0 <= i < n && xs[..n][i] > 0.0, set i | 0 <= i < |xs| && xs[i] > 0.0;
      assert t == if xs[n] > 0.0 then s + {n} else s;
    }
  }

  lemma {:induction false} GrossIsPositive(xs: seq<real>, sign: real)
    ensures Gross(xs, sign) >= 0.0
  {
    if xs != [] {
      GrossIsPositive(xs[..|xs| - 1], sign);
    }
  }
}

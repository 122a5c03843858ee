/**
 The bar-by-bar trading engine of `crates/sim/src/engine.rs`. The decider is any
 function of what it has been shown: the bars up to the current one and the
 states of the bars of the evaluation period so far.
 */
module Engine {
  import opened Wrappers
  import opened Market

  datatype ExitReason = Signal | ProtectiveStop | EndOfData

  datatype SimTrade = SimTrade(
    direction: int, entryIdx: nat, exitIdx: nat, entryMilli: int, exitMilli: int, pnlMilli: int, reason: ExitReason)

  datatype BarState = BarState(t: nat, position: int, entryPriceMilli: int, barsHeld: nat)

  datatype Decision = Answer(signal: int) | ScriptFailure(message: string) | FatalFailure(message: string)

  type Decider = (seq<Bar>, seq<BarState>) -> Decision

  datatype RunStatus = RunOk | ScriptError(openTime: int, message: string)

  datatype SimOutcome = SimOutcome(status: RunStatus, trades: seq<SimTrade>, positions: seq<int>)

  datatype SimResult = Finished(outcome: SimOutcome) | Failed(message: string)

  const UNEXPECTED_SIGNAL := "on_bar returned an unexpected signal"

  // ------------------------------------------------------------------- prices

  function ClosingPrice(position: int, bar: Bar): int {
    if position == 1 then bar.bidOpen else bar.askOpen
  }

  function OpeningPrice(signal: int, bar: Bar): int {
    if signal == 1 then bar.askOpen else bar.bidOpen
  }

  function PeriodEndPrice(position: int, bar: Bar): int {
    if position == 1 then bar.bidClose else bar.askClose
  }

  function Pnl(direction: int, entry: int, exit: int): int {
    if direction == 1 then exit - entry else entry - exit
  }

  function StopPrice(position: int, entry: int, offset: int): int {
    if position == 1 then entry - offset else entry + offset
  }

  predicate Touches(position: int, stop: int, bar: Bar) {
    if position == 1 then bar.bidLow <= stop else bar.askHigh >= stop
  }

  function StopFill(position: int, stop: int, bar: Bar): int {
    if position == 1 then Min(stop, bar.bidOpen) else Max(stop, bar.askOpen)
  }

  function ClosedTrade(direction: int, entryIdx: nat, exitIdx: nat, entry: int, exit: int, reason: ExitReason): SimTrade {
    SimTrade(direction, entryIdx, exitIdx, entry, exit, Pnl(direction, entry, exit), reason)
  }

  // -------------------------------------------------------- one bar, on values

  datatype Account = Account(position: int, entryPrice: int, entryIdx: nat, trades: seq<SimTrade>)

  function AfterSignal(a: Account, signal: int, t: nat, bar: Bar): Account {
    if signal == a.position then a
    else
      var trades :=
        if a.position == 0 then a.trades
        else a.trades + [ClosedTrade(a.position, a.entryIdx, t, a.entryPrice, ClosingPrice(a.position, bar), Signal)];
      if signal == 0 then Account(0, a.entryPrice, a.entryIdx, trades)
      else Account(signal, OpeningPrice(signal, bar), t, trades)
  }

  function AfterStop(a: Account, offset: int, t: nat, bar: Bar): Account {
    var stop := StopPrice(a.position, a.entryPrice, offset);
    if a.position == 0 || !Touches(a.position, stop, bar) then a
    else
      var fill := StopFill(a.position, stop, bar);
      a.(position := 0, trades := a.trades + [ClosedTrade(a.position, a.entryIdx, t, a.entryPrice, fill, ProtectiveStop)])
  }

  function AtPeriodEnd(a: Account, n: nat, last: Bar): seq<SimTrade>
    requires n >= 1
  {
    if a.position == 0 then a.trades
    else a.trades + [ClosedTrade(a.position, a.entryIdx, n - 1, a.entryPrice, PeriodEndPrice(a.position, last), EndOfData)]
  }

  function StateShown(offset: nat, t: nat, a: Account): BarState {
    var held := if a.position == 0 then 0 else (t - a.entryIdx) % 0x1_0000_0000;
    BarState(offset + t, a.position, a.entryPrice, held)
  }

  // ----------------------------------------------------------------- whole runs

  /** The dataset `bars`, whose bars from `start` on are the evaluation bars, with a decider and a stop distance. */
  datatype Setup = Setup(bars: seq<Bar>, start: nat, decider: Decider, stopOffset: int)
  {
    predicate Valid() { start < |bars| }

    function N(): nat
      requires Valid()
    {
      |bars| - start
    }

    function EvalBar(t: nat): Bar
      requires Valid() && t < N()
    {
      bars[start + t]
    }

    /** What the decider can see at bar `t`. */
    function Visible(t: nat): seq<Bar>
      requires Valid() && t < N()
    {
      bars[..start + t + 1]
    }
  }

  datatype Halt = Running | ScriptHalt(openTime: int, message: string) | FatalHalt(message: string)

  /** `shown` and `signals` are histories: the states the decider was shown and the signals it returned. */
  datatype RunState = RunState(
    acc: Account, pending: Option<int>, positions: seq<int>, shown: seq<BarState>, signals: seq<int>, halt: Halt)

  function StepBar(p: Setup, s: RunState, t: nat): RunState
    requires p.Valid() && t < p.N()
  {
    if !s.halt.Running? then s
    else
      var bar := p.EvalBar(t);
      var a := if s.pending.Some? then AfterSignal(s.acc, s.pending.value, t, bar) else s.acc;
      var b := AfterStop(a, p.stopOffset, t, bar);
      var shown := s.shown + [StateShown(p.start, t, b)];
      var r := RunState(b, s.pending, s.positions + [b.position], shown, s.signals, Running);
      match p.decider(p.Visible(t), shown)
      case Answer(signal) =>
        if -1 <= signal <= 1 then
          r.(pending := if t + 1 < p.N() then Some(signal) else None, signals := s.signals + [signal])
        else r.(halt := ScriptHalt(bar.openTime, UNEXPECTED_SIGNAL))
      case ScriptFailure(message) => r.(halt := ScriptHalt(bar.openTime, message))
      case FatalFailure(message) => r.(halt := FatalHalt(message))
  }

  function StateAt(p: Setup, t: nat): RunState
    requires p.Valid() && t <= p.N()
  {
    if t == 0 then RunState(Account(0, 0, 0, []), None, [], [], [], Running)
    else StepBar(p, StateAt(p, t - 1), t - 1)
  }

  function ResultOf(p: Setup): SimResult
    requires p.Valid()
  {
    var s := StateAt(p, p.N());
    match s.halt
    case Running => Finished(SimOutcome(RunOk, AtPeriodEnd(s.acc, p.N(), p.EvalBar(p.N() - 1)), s.positions))
    case ScriptHalt(openTime, message) => Finished(SimOutcome(ScriptError(openTime, message), s.acc.trades, s.positions))
    case FatalHalt(message) => Failed(message)
  }

  // ------------------------------------------------------------- the engine itself

  method ApplySignalPendingFromPreviousBar(
      signal: int, t: nat, bar: Bar, position: int, entryPrice: int, entryIdx: nat, trades: seq<SimTrade>)
    returns (position': int, entryPrice': int, entryIdx': nat, trades': seq<SimTrade>)
    ensures Account(position', entryPrice', entryIdx', trades')
         == AfterSignal(Account(position, entryPrice, entryIdx, trades), signal, t, bar)
  {
    position', entryPrice', entryIdx', trades' := position, entryPrice, entryIdx, trades;
    if signal == position {
      return;
    }
    if position != 0 {
      var exit := ClosingPrice(position, bar);
      trades' := trades' + [ClosedTrade(position, entryIdx, t, entryPrice, exit, Signal)];
      position' := 0;
    }
    if signal != 0 {
      entryPrice' := OpeningPrice(signal, bar);
      entryIdx' := t;
      position' := signal;
    }
  }

  method ApplyProtectiveStop(
      position: int, entryPrice: int, entryIdx: nat, offset: int, t: nat, bar: Bar, trades: seq<SimTrade>)
    returns (position': int, trades': seq<SimTrade>)
    ensures Account(position', entryPrice, entryIdx, trades')
         == AfterStop(Account(position, entryPrice, entryIdx, trades), offset, t, bar)
  {
    if position == 0 {
      return position, trades;
    }
    var stop := if position == 1 then entryPrice - offset else entryPrice + offset;
    var hit := if position == 1 then bar.bidLow <= stop else bar.askHigh >= stop;
    if !hit {
      return position, trades;
    }
    var exit := if position == 1 then Min(stop, bar.bidOpen) else Max(stop, bar.askOpen);
    return 0, trades + [ClosedTrade(position, entryIdx, t, entryPrice, exit, ProtectiveStop)];
  }

  lemma {:induction false} HaltedStays(p: Setup, t: nat, u: nat)
    requires p.Valid() && t <= u <= p.N() && !StateAt(p, t).halt.Running?
    ensures StateAt(p, u) == StateAt(p, t)
  {
    if t < u {
      HaltedStays(p, t, u - 1);
    }
  }

  lemma FirstState(p: Setup)
    requires p.Valid()
    ensures StateAt(p, 0) == RunState(Account(0, 0, 0, []), None, [], [], [], Running)
  {
  }

  /** What a bar does to a run that is going on. */
  lemma BarOfRun(p: Setup, t: nat)
    requires p.Valid() && t < p.N() && StateAt(p, t).halt.Running?
    ensures var s, s', bar := StateAt(p, t), StateAt(p, t + 1), p.EvalBar(t);
      var a := if s.pending.Some? then AfterSignal(s.acc, s.pending.value, t, bar) else s.acc;
      && s'.acc == AfterStop(a, p.stopOffset, t, bar)
      && s'.positions == s.positions + [s'.acc.position]
      && s'.shown == s.shown + [StateShown(p.start, t, s'.acc)]
      && match p.decider(p.Visible(t), s'.shown)
         case Answer(signal) =>
           if -1 <= signal <= 1 then s'.halt == Running && s'.pending == if t + 1 < p.N() then Some(signal) else None
           else s'.halt == ScriptHalt(bar.openTime, UNEXPECTED_SIGNAL)
         case ScriptFailure(message) => s'.halt == ScriptHalt(bar.openTime, message)
         case FatalFailure(message) => s'.halt == FatalHalt(message)
  {
    hide AfterSignal, AfterStop, StateShown;
  }

  /** A run that has halted is over. */
  lemma HaltedResult(p: Setup, t: nat)
    requires p.Valid() && t <= p.N()
    ensures var s := StateAt(p, t);
      match s.halt
      case Running => true
      case ScriptHalt(openTime, message) =>
        ResultOf(p) == Finished(SimOutcome(ScriptError(openTime, message), s.acc.trades, s.positions))
      case FatalHalt(message) => ResultOf(p) == Failed(message)
  {
    hide StateAt, AtPeriodEnd;
    if !StateAt(p, t).halt.Running? {
      HaltedStays(p, t, p.N());
    }
  }

  method CloseAtPeriodEnd(position: int, entryPrice: int, entryIdx: nat, n: nat, last: Bar, trades: seq<SimTrade>)
    returns (trades': seq<SimTrade>)
    requires n >= 1
    ensures trades' == AtPeriodEnd(Account(position, entryPrice, entryIdx, trades), n, last)
  {
    if position == 0 {
      return trades;
    }
    var exit := if position == 1 then last.bidClose else last.askClose;
    return trades + [ClosedTrade(position, entryIdx, n - 1, entryPrice, exit, EndOfData)];
  }

  method Simulate(p: Setup) returns (r: SimResult)
    requires p.Valid()
    ensures r == ResultOf(p)
  {
    hide AfterSignal, AfterStop, StateShown, AtPeriodEnd, StateAt;
    var n := p.N();
    FirstState(p);
    var trades: seq<SimTrade>, positions: seq<int> := [], [];
    var position, entryPrice, entryIdx: nat := 0, 0, 0;
    var pending: Option<int> := None;
    var shown: seq<BarState> := [];
    for t := 0 to n
      invariant StateAt(p, t).halt.Running?
      invariant StateAt(p, t).acc == Account(position, entryPrice, entryIdx, trades)
      invariant StateAt(p, t).pending == pending && StateAt(p, t).positions == positions && StateAt(p, t).shown == shown
    {
      var bar := p.EvalBar(t);
      if pending.Some? {
        position, entryPrice, entryIdx, trades :=
          ApplySignalPendingFromPreviousBar(pending.value, t, bar, position, entryPrice, entryIdx, trades);
      }
      position, trades := ApplyProtectiveStop(position, entryPrice, entryIdx, p.stopOffset, t, bar, trades);
      positions := positions + [position];
      var state := StateShown(p.start, t, Account(position, entryPrice, entryIdx, trades));
      shown := shown + [state];
      BarOfRun(p, t);
      HaltedResult(p, t + 1);
      match p.decider(p.Visible(t), shown)
      case Answer(signal) =>
        if -1 <= signal <= 1 {
          pending := if t + 1 < n then Some(signal) else None;
        } else {
          return Finished(SimOutcome(ScriptError(bar.openTime, UNEXPECTED_SIGNAL), trades, positions));
        }
      case ScriptFailure(message) =>
        return Finished(SimOutcome(ScriptError(bar.openTime, message), trades, positions));
      case FatalFailure(message) =>
        return Failed(message);
    }
    trades := CloseAtPeriodEnd(position, entryPrice, entryIdx, n, p.EvalBar(n - 1), trades);
    return Finished(SimOutcome(RunOk, trades, positions));
  }
}

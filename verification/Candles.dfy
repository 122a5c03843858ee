/**
 The candle builder of `crates/market/src/candle_builder.rs`. A builder cuts a
 stream of ticks into runs of the same period, and a candle sums up one run.
 Times are in seconds; prices and volumes are exact reals.
 */
module Candles {
  import opened IntArith
  import opened RealArith
  import opened Wrappers

  const M1_SECS := 60
  const M5_SECS := 300
  const H1_SECS := 3600
  const U64_MAX: int := 0xFFFF_FFFF_FFFF_FFFF

  /** A tick, or a call that finishes the open candle once its period has ended at `now`. */
  datatype Event =
    | Tick(price: real, size: real, ts: int, bid: Option<real>, ask: Option<real>)
    | Poll(now: int, bid: Option<real>, ask: Option<real>)

  /** The start of a time's period. The remainder is rounded toward zero, as in the source. */
  function PeriodStart(ts: int, period: int): int
    requires period > 0
  {
    ts - if ts >= 0 then ts % period else -((-ts) % period)
  }

  function Newer(given: Option<real>, kept: Option<real>): Option<real> {
    if given.Some? then given else kept
  }

  // -------------------------------------------------------------- sums of a run

  datatype Ohlcv = Ohlcv(open: real, high: real, low: real, close: real, volume: real)

  /** The sum of two runs one after the other. */
  function Merge(a: Ohlcv, b: Ohlcv): Ohlcv {
    Ohlcv(a.open, MaxR(a.high, b.high), MinR(a.low, b.low), b.close, a.volume + b.volume)
  }

  predicate AreTicks(run: seq<Event>) {
    forall i | 0 <= i < |run| :: run[i].Tick?
  }

  function Single(t: Event): Ohlcv
    requires t.Tick?
  {
    Ohlcv(t.price, t.price, t.price, t.price, t.size)
  }

  function Fold(run: seq<Event>): Ohlcv
    requires run != [] && AreTicks(run)
  {
    var n := |run| - 1;
    if n == 0 then Single(run[0]) else Merge(Fold(run[..n]), Single(run[n]))
  }

  lemma FoldOne(t: Event)
    requires t.Tick?
    ensures Fold([t]) == Single(t)
  {
  }

  lemma FoldNext(run: seq<Event>, t: Event)
    requires AreTicks(run) && t.Tick?
    ensures Fold(run + [t]) == if run == [] then Single(t) else Merge(Fold(run), Single(t))
  {
    assert (run + [t])[..|run|] == run;
  }

  function Volume(run: seq<Event>): real
    requires AreTicks(run)
  {
    if run == [] then 0.0 else Volume(run[..|run| - 1]) + run[|run| - 1].size
  }

  /** What the sum of a run says: its first and last price, its extremes, and its whole volume. */
  lemma {:induction false} FoldIsTheSummary(run: seq<Event>)
    requires run != [] && AreTicks(run)
    ensures var f := Fold(run);
      && f.open == run[0].price && f.close == run[|run| - 1].price && f.volume == Volume(run)
      && (forall i | 0 <= i < |run| :: f.low <= run[i].price <= f.high)
      && (exists i :: 0 <= i < |run| && f.high == run[i].price)
      && (exists i :: 0 <= i < |run| && f.low == run[i].price)
  {
    var n := |run| - 1;
    if n > 0 {
      FoldIsTheSummary(run[..n]);
      var f := Fold(run[..n]);
      var i :| 0 <= i < n && f.high == run[..n][i].price;
      var j :| 0 <= j < n && f.low == run[..n][j].price;
      assert run[i].price == f.high && run[j].price == f.low;
      assert run[..n][..0] == [];
    } else {
      assert Volume(run[..0]) == 0.0;
    }
  }

  // ------------------------------------------------------------------ the builder

  datatype Candle = Candle(
    timestamp: int, open: real, high: real, low: real, close: real, volume: int, bid: Option<real>, ask: Option<real>)

  /** Rounds half away from zero and converts to an unsigned number, which saturates. */
  function RoundU64(x: real): int {
    if x < 0.5 then 0
    else
      var r := (x + 0.5).Floor;
      if r <= U64_MAX then r else U64_MAX
  }

  predicate SamePeriod(run: seq<Event>, period: int)
    requires period > 0
  {
    AreTicks(run) && forall i | 0 <= i < |run| :: PeriodStart(run[i].ts, period) == PeriodStart(run[0].ts, period)
  }

  function CandleOf(run: seq<Event>, period: int, bid: Option<real>, ask: Option<real>): Candle
    requires period > 0 && run != [] && AreTicks(run)
  {
    var f := Fold(run);
    Candle(PeriodStart(run[0].ts, period), f.open, f.high, f.low, f.close, RoundU64(f.volume), bid, ask)
  }

  /** A period starts at a multiple of its length; times before 1970 belong to the multiple after them. */
  lemma PeriodStartIs(ts: int, period: int)
    requires period > 0
    ensures var s := PeriodStart(ts, period);
      s % period == 0 && if ts >= 0 then s <= ts < s + period else s - period < ts <= s
  {
    var t := if ts >= 0 then ts else -ts;
    var q := t / period;
    MultipleIs(q, period);
    MultipleIs(-q, period);
    assert PeriodStart(ts, period) == if ts >= 0 then q * period else -q * period;
  }

  /** A volume is rounded to the nearest whole number, upwards from the middle; beyond 64 bits it is the largest one. */
  lemma RoundIsNearest(x: real, n: nat)
    requires n <= U64_MAX
    ensures RoundU64(x) == n <==>
      && (n == 0 || n as real - 0.5 <= x)
      && (n == 0xFFFF_FFFF_FFFF_FFFF || x < n as real + 0.5)
  {
  }

  /** The candle of a run: its period, its first and last price, its extremes, and its rounded volume. */
  ghost predicate SumsUp(c: Candle, run: seq<Event>, period: int)
    requires period > 0 && run != [] && AreTicks(run)
  {
    && c.timestamp == PeriodStart(run[0].ts, period)
    && c.open == run[0].price && c.close == run[|run| - 1].price
    && (forall i | 0 <= i < |run| :: c.low <= run[i].price <= c.high)
    && (exists i :: 0 <= i < |run| && c.high == run[i].price)
    && (exists i :: 0 <= i < |run| && c.low == run[i].price)
    && c.volume == RoundU64(Volume(run))
  }

  lemma CandleSumsUp(run: seq<Event>, period: int, bid: Option<real>, ask: Option<real>)
    requires period > 0 && run != [] && AreTicks(run)
    ensures SumsUp(CandleOf(run, period, bid, ask), run, period)
  {
    hide Fold, RoundU64, PeriodStart;
    FoldIsTheSummary(run);
  }

  class CandleBuilder {
    const periodSecs: int
    var currentPeriodStart: Option<int>
    var open: Option<real>
    var high: Option<real>
    var low: Option<real>
    var close: Option<real>
    var volume: real
    var lastBestBid: Option<real>
    var lastBestAsk: Option<real>
    /** The ticks of the open candle. */
    ghost var run: seq<Event>

    ghost predicate Valid()
      reads this
    {
      && periodSecs > 0 && SamePeriod(run, periodSecs)
      && if run == [] then
           currentPeriodStart.None? && open.None? && high.None? && low.None? && close.None? && volume == 0.0
         else
           var f := Fold(run);
           && currentPeriodStart == Some(PeriodStart(run[0].ts, periodSecs))
           && open == Some(f.open) && high == Some(f.high) && low == Some(f.low) && close == Some(f.close)
           && volume == f.volume
    }

    constructor (period: int)
      requires period == M1_SECS || period == M5_SECS || period == H1_SECS
      ensures Valid() && periodSecs == period && run == [] && lastBestBid == lastBestAsk == None
    {
      periodSecs := period;
      currentPeriodStart, open, high, low, close := None, None, None, None, None;
      volume := 0.0;
      lastBestBid, lastBestAsk := None, None;
      run := [];
    }

    method CompleteCurrent() returns (candle: Option<Candle>)
      requires Valid()
      modifies this
      ensures Valid() && run == [] && lastBestBid == old(lastBestBid) && lastBestAsk == old(lastBestAsk)
      ensures candle == if old(run) == [] then None
                        else Some(CandleOf(old(run), periodSecs, lastBestBid, lastBestAsk))
    {
      if currentPeriodStart.None? {
        return None;
      }
      candle := Some(Candle(currentPeriodStart.value, open.value, high.value, low.value, close.value,
                            RoundU64(volume), lastBestBid, lastBestAsk));
      open, high, low, close := None, None, None, None;
      currentPeriodStart := None;
      volume := 0.0;
      run := [];
    }

    method StartRun(ps: int, price: real, size: real, ghost t: Event)
      requires periodSecs > 0 && t.Tick? && t.price == price && t.size == size && PeriodStart(t.ts, periodSecs) == ps
      modifies this
      ensures Valid() && run == [t] && lastBestBid == old(lastBestBid) && lastBestAsk == old(lastBestAsk)
    {
      hide PeriodStart;
      currentPeriodStart := Some(ps);
      open, high, low, close := Some(price), Some(price), Some(price), Some(price);
      volume := size;
      run := [t];
      FoldOne(t);
    }

    method ExtendRun(price: real, size: real, ghost t: Event)
      requires Valid() && run != [] && t.Tick? && t.price == price && t.size == size
      requires PeriodStart(t.ts, periodSecs) == PeriodStart(run[0].ts, periodSecs)
      modifies this
      ensures Valid() && run == old(run) + [t] && lastBestBid == old(lastBestBid) && lastBestAsk == old(lastBestAsk)
    {
      hide Fold, PeriodStart;
      FoldNext(run, t);
      if price > high.value {
        high := Some(price);
      }
      if price < low.value {
        low := Some(price);
      }
      close := Some(price);
      volume := volume + size;
      run := run + [t];
    }

    method OnTick(price: real, size: real, ts: int, bid: Option<real>, ask: Option<real>) returns (completed: Option<Candle>)
      requires Valid()
      modifies this
      ensures Valid()
      ensures lastBestBid == Newer(bid, old(lastBestBid)) && lastBestAsk == Newer(ask, old(lastBestAsk))
      ensures var t := Tick(price, size, ts, bid, ask);
        if old(run) != [] && PeriodStart(old(run)[0].ts, periodSecs) == PeriodStart(ts, periodSecs) then
          completed == None && run == old(run) + [t]
        else
          && run == [t]
          && completed == if old(run) == [] then None
                          else Some(CandleOf(old(run), periodSecs, old(lastBestBid), old(lastBestAsk)))
    {
      hide Fold, PeriodStart, CandleOf;
      ghost var t := Tick(price, size, ts, bid, ask);
      var ps := PeriodStart(ts, periodSecs);
      completed := None;
      if currentPeriodStart.Some? && currentPeriodStart != Some(ps) {
        completed := CompleteCurrent();
      }
      if bid.Some? {
        lastBestBid := bid;
      }
      if ask.Some? {
        lastBestAsk := ask;
      }
      if currentPeriodStart != Some(ps) {
        StartRun(ps, price, size, t);
      } else {
        ExtendRun(price, size, t);
      }
    }

    method TryComplete(now: int, bid: Option<real>, ask: Option<real>) returns (candle: Option<Candle>)
      requires Valid()
      modifies this
      ensures Valid()
      ensures if old(run) != [] && now >= PeriodStart(old(run)[0].ts, periodSecs) + periodSecs then
                && run == []
                && lastBestBid == Newer(bid, old(lastBestBid)) && lastBestAsk == Newer(ask, old(lastBestAsk))
                && candle == Some(CandleOf(old(run), periodSecs, lastBestBid, lastBestAsk))
              else
                candle == None && run == old(run) && lastBestBid == old(lastBestBid) && lastBestAsk == old(lastBestAsk)
    {
      if currentPeriodStart.None? {
        return None;
      }
      var periodEnd := currentPeriodStart.value + periodSecs;
      if now < periodEnd {
        return None;
      }
      if bid.Some? {
        lastBestBid := bid;
      }
      if ask.Some? {
        lastBestAsk := ask;
      }
      candle := CompleteCurrent();
    }
  }

  // ----------------------------------------------------------------- whole streams

  datatype Finished = Finished(run: seq<Event>, bid: Option<real>, ask: Option<real>)

  /** A stream cut into finished runs and the open one. */
  datatype Cut = Cut(done: seq<Finished>, current: seq<Event>, bid: Option<real>, ask: Option<real>)

  function CutNext(c: Cut, e: Event, period: int): Cut
    requires period > 0 && AreTicks(c.current)
  {
    match e
    case Tick(_, _, ts, bid, ask) =>
      var b, a := Newer(bid, c.bid), Newer(ask, c.ask);
      if c.current != [] && PeriodStart(c.current[0].ts, period) == PeriodStart(ts, period) then
        Cut(c.done, c.current + [e], b, a)
      else
        Cut(if c.current == [] then c.done else c.done + [Finished(c.current, c.bid, c.ask)], [e], b, a)
    case Poll(now, bid, ask) =>
      if c.current != [] && now >= PeriodStart(c.current[0].ts, period) + period then
        var b, a := Newer(bid, c.bid), Newer(ask, c.ask);
        Cut(c.done + [Finished(c.current, b, a)], [], b, a)
      else c
  }

  function CutUp(events: seq<Event>, period: int): (c: Cut)
    requires period > 0
    ensures SamePeriod(c.current, period)
    ensures forall k | 0 <= k < |c.done| :: c.done[k].run != [] && SamePeriod(c.done[k].run, period)
  {
    if events == [] then Cut([], [], None, None)
    else CutNext(CutUp(events[..|events| - 1], period), events[|events| - 1], period)
  }

  function CandlesOf(done: seq<Finished>, period: int): (s: seq<Candle>)
    requires period > 0 && forall k | 0 <= k < |done| :: done[k].run != [] && AreTicks(done[k].run)
    ensures |s| == |done|
  {
    seq(|done|, k requires 0 <= k < |done| => CandleOf(done[k].run, period, done[k].bid, done[k].ask))
  }

  /** A builder emits one candle for each finished run of the stream, and holds the open run. */
  method Build(events: seq<Event>, period: int) returns (candles: seq<Candle>, builder: CandleBuilder)
    requires period == M1_SECS || period == M5_SECS || period == H1_SECS
    ensures candles == CandlesOf(CutUp(events, period).done, period)
    ensures builder.Valid() && builder.run == CutUp(events, period).current
  {
    builder := new CandleBuilder(period);
    candles := [];
    for n := 0 to |events|
      invariant builder.Valid() && fresh(builder) && builder.periodSecs == period
      invariant var c := CutUp(events[..n], period);
        && builder.run == c.current && builder.lastBestBid == c.bid && builder.lastBestAsk == c.ask
        && candles == CandlesOf(c.done, period)
    {
      hide CandleOf, CandlesOf;
      assert events[..n + 1][..n] == events[..n];
      CandlesNext(CutUp(events[..n], period), events[n], period);
      var finished: Option<Candle>;
      match events[n] {
        case Tick(price, size, ts, bid, ask) => finished := builder.OnTick(price, size, ts, bid, ask);
        case Poll(now, bid, ask) => finished := builder.TryComplete(now, bid, ask);
      }
      if finished.Some? {
        candles := candles + [finished.value];
      }
    }
    assert events[..|events|] == events;
  }

  /** Every candle of a stream sums up its run, and has the quotes that were kept when it was finished. */
  lemma CandlesSumUp(events: seq<Event>, period: int, k: nat)
    requires period > 0 && k < |CutUp(events, period).done|
    ensures var done, candles := CutUp(events, period).done, CandlesOf(CutUp(events, period).done, period);
      SumsUp(candles[k], done[k].run, period) && candles[k].bid == done[k].bid && candles[k].ask == done[k].ask
  {
    hide SumsUp, CutUp;
    var x := CutUp(events, period).done[k];
    CandleSumsUp(x.run, period, x.bid, x.ask);
  }

  /** A poll finishes the open candle exactly when its period is over, and a tick exactly when it is of another period. */
  lemma WhenACandleIsFinished(events: seq<Event>, period: int)
    requires period > 0 && events != []
    ensures var n := |events| - 1;
      var c, d := CutUp(events[..n], period), CutUp(events, period);
      var start := if c.current == [] then 0 else PeriodStart(c.current[0].ts, period);
      && |d.done| == |c.done| + (if
           c.current != []
           && (if events[n].Poll? then start + period <= events[n].now else start != PeriodStart(events[n].ts, period))
           then 1 else 0)
      && (events[n].Tick? ==> d.current != [] && d.current[|d.current| - 1] == events[n])
      && (events[n].Poll? ==> d.current == if |d.done| > |c.done| then [] else c.current)
  {
    hide PeriodStart;
  }

  // ------------------------------------------------------------------- the quotes

  function QuoteOf(e: Event, ofBid: bool): Option<real> { if ofBid then e.bid else e.ask }

  /** A tick brings its quotes, and a poll when it finishes a candle. */
  ghost predicate Brings(events: seq<Event>, period: int, i: nat)
    requires period > 0 && i < |events|
  {
    events[i].Tick? || |CutUp(events[..i + 1], period).done| > |CutUp(events[..i], period).done|
  }

  /** `q` is the last quote that the events have brought. */
  ghost predicate IsLatest(events: seq<Event>, period: int, ofBid: bool, q: Option<real>)
    requires period > 0
  {
    if q.None? then forall i: nat | i < |events| && Brings(events, period, i) :: QuoteOf(events[i], ofBid).None?
    else
      exists i: nat :: i < |events| && Brings(events, period, i) && QuoteOf(events[i], ofBid) == q
        && forall j: nat | i < j < |events| && Brings(events, period, j) :: QuoteOf(events[j], ofBid).None?
  }

  lemma SameBrings(events: seq<Event>, n: nat, period: int, i: nat)
    requires period > 0 && i < n <= |events|
    ensures Brings(events[..n], period, i) <==> Brings(events, period, i)
  {
    assert events[..n][..i] == events[..i] && events[..n][..i + 1] == events[..i + 1];
  }

  lemma NextLatest(events: seq<Event>, period: int, ofBid: bool, q: Option<real>)
    requires period > 0 && events != [] && IsLatest(events[..|events| - 1], period, ofBid, q)
    ensures var n := |events| - 1;
      IsLatest(events, period, ofBid, if Brings(events, period, n) then Newer(QuoteOf(events[n], ofBid), q) else q)
  {
    hide Brings;
    var n := |events| - 1;
    var front := events[..n];
    forall i: nat | i < n ensures Brings(front, period, i) <==> Brings(events, period, i) {
      SameBrings(events, n, period, i);
    }
    if q.Some? {
      var i: nat :| i < |front| && Brings(front, period, i) && QuoteOf(front[i], ofBid) == q
        && forall j: nat | i < j < |front| && Brings(front, period, j) :: QuoteOf(front[j], ofBid).None?;
      assert Brings(events, period, i);
    }
  }

  /** The kept quotes are the last ones brought. */
  lemma {:induction false} KeptQuotesAreTheLatest(events: seq<Event>, period: int)
    requires period > 0
    ensures IsLatest(events, period, true, CutUp(events, period).bid)
    ensures IsLatest(events, period, false, CutUp(events, period).ask)
  {
    hide PeriodStart, IsLatest;
    if events == [] {
      NothingBrought(period, true);
      NothingBrought(period, false);
    } else {
      var n := |events| - 1;
      var c := CutUp(events[..n], period);
      KeptQuotesAreTheLatest(events[..n], period);
      NextLatest(events, period, true, c.bid);
      NextLatest(events, period, false, c.ask);
      assert events[..n + 1] == events;
    }
  }

  lemma NothingBrought(period: int, ofBid: bool)
    requires period > 0
    ensures IsLatest([], period, ofBid, None)
  {
  }

  /** A candle is finished with the quotes that the events before a tick, or up to a poll, have brought. */
  lemma {:induction false} FinishedWithTheLatest(events: seq<Event>, period: int, k: nat) returns (n: nat)
    requires period > 0 && k < |CutUp(events, period).done|
    ensures n < |events| && |CutUp(events[..n], period).done| == k < |CutUp(events[..n + 1], period).done|
    ensures var x := CutUp(events, period).done[k];
      var m := if events[n].Tick? then n else n + 1;
      && x.run == CutUp(events[..n], period).current
      && IsLatest(events[..m], period, true, x.bid) && IsLatest(events[..m], period, false, x.ask)
  {
    hide PeriodStart, IsLatest;
    var last := |events| - 1;
    var front := events[..last];
    if k < |CutUp(front, period).done| {
      n := FinishedWithTheLatest(front, period, k);
      assert front[..n] == events[..n] && front[..n + 1] == events[..n + 1];
    } else {
      n := last;
      assert events[..n + 1] == events;
      KeptQuotesAreTheLatest(front, period);
      KeptQuotesAreTheLatest(events, period);
    }
  }

  /** An event finishes one more candle or none. */
  lemma CandlesNext(c: Cut, e: Event, period: int)
    requires period > 0 && SamePeriod(c.current, period)
    requires forall k | 0 <= k < |c.done| :: c.done[k].run != [] && SamePeriod(c.done[k].run, period)
    ensures var d, n := CutNext(c, e, period).done, |c.done|;
      && (forall k | 0 <= k < |d| :: d[k].run != [] && AreTicks(d[k].run))
      && (d == c.done
          || (|d| == n + 1 && d[..n] == c.done
              && CandlesOf(d, period) == CandlesOf(c.done, period) + [CandleOf(d[n].run, period, d[n].bid, d[n].ask)]))
  {
    hide CandleOf, PeriodStart, Newer;
  }

  // ------------------------------------------- what the cut does to the stream

  function TicksOf(events: seq<Event>): (s: seq<Event>)
    ensures AreTicks(s)
  {
    if events == [] then []
    else
      var e := events[|events| - 1];
      TicksOf(events[..|events| - 1]) + if e.Tick? then [e] else []
  }

  function Joined(done: seq<Finished>): seq<Event> {
    if done == [] then [] else Joined(done[..|done| - 1]) + done[|done| - 1].run
  }

  /** No tick is lost, doubled or moved: the runs in order are the ticks of the stream. */
  lemma {:induction false} EveryTickIsInOneRun(events: seq<Event>, period: int)
    requires period > 0
    ensures Joined(CutUp(events, period).done) + CutUp(events, period).current == TicksOf(events)
  {
    hide PeriodStart;
    if events != [] {
      var n := |events| - 1;
      EveryTickIsInOneRun(events[..n], period);
      var c, e := CutUp(events[..n], period), events[n];
      assert (c.done + [Finished(c.current, c.bid, c.ask)])[..|c.done|] == c.done;
      if e.Tick? {
        assert Joined(c.done) + (c.current + [e]) == Joined(c.done) + c.current + [e];
      } else {
        var d := CutUp(events, period);
        assert d.done != c.done ==> d.done[..|c.done|] == c.done;
      }
    }
  }

  function VolumesOf(done: seq<Finished>): real
    requires forall k | 0 <= k < |done| :: AreTicks(done[k].run)
  {
    if done == [] then 0.0 else VolumesOf(done[..|done| - 1]) + Volume(done[|done| - 1].run)
  }

  lemma {:induction false} VolumeOfBoth(a: seq<Event>, b: seq<Event>)
    requires AreTicks(a) && AreTicks(b)
    ensures Volume(a + b) == Volume(a) + Volume(b)
  {
    if b == [] {
      assert a + b == a;
    } else {
      var n := |b| - 1;
      VolumeOfBoth(a, b[..n]);
      assert (a + b)[..|a + b| - 1] == a + b[..n];
    }
  }

  lemma {:induction false} VolumeOfRuns(done: seq<Finished>)
    requires forall k | 0 <= k < |done| :: AreTicks(done[k].run)
    ensures AreTicks(Joined(done)) && Volume(Joined(done)) == VolumesOf(done)
  {
    if done != [] {
      var n := |done| - 1;
      VolumeOfRuns(done[..n]);
      VolumeOfBoth(Joined(done[..n]), done[n].run);
    }
  }

  /** Before it is rounded, no volume is lost. */
  lemma VolumeIsConserved(events: seq<Event>, period: int)
    requires period > 0
    ensures var c := CutUp(events, period);
      VolumesOf(c.done) + Volume(c.current) == Volume(TicksOf(events))
  {
    var c := CutUp(events, period);
    EveryTickIsInOneRun(events, period);
    VolumeOfRuns(c.done);
    VolumeOfBoth(Joined(c.done), c.current);
  }

  // ------------------------------------------------------- events in time order

  function TimeOf(e: Event): int { if e.Tick? then e.ts else e.now }

  predicate InOrder(events: seq<Event>) {
    forall i, j | 0 <= i <= j < |events| :: TimeOf(events[i]) <= TimeOf(events[j])
  }

  lemma DivMod(n: nat, p: int)
    requires p > 0
    ensures n - n % p == p * (n / p) && 0 <= n % p < p && n / p >= 0
  {
  }

  /** Period starts are the multiples of the period. */
  lemma StartIsMultiple(t: int, period: int) returns (k: int)
    requires period > 0
    ensures PeriodStart(t, period) == period * k
    ensures if t >= 0 then k >= 0 && period * k <= t < period * k + period else k <= 0 && period * k - period < t <= period * k
  {
    var n := if t >= 0 then t else -t;
    DivMod(n, period);
    var q := n / period;
    k := if t >= 0 then q else -q;
    Negated(period, q);
  }

  lemma Negated(p: int, q: int)
    ensures p * (-q) == -(p * q)
  {
  }

  lemma MultiplesInOrder(p: int, a: int, b: int)
    requires p > 0
    ensures a < b ==> p * a + p <= p * b
    ensures a <= b ==> p * a <= p * b
  {
    if a < b {
      MulMonotone(a + 1, b, p);
      assert p * (a + 1) == p * a + p;
    }
  }

  lemma PeriodsAdvance(t: int, u: int, period: int)
    requires period > 0
    ensures t <= u ==> PeriodStart(t, period) <= PeriodStart(u, period)
    ensures u >= PeriodStart(t, period) + period ==> PeriodStart(t, period) < PeriodStart(u, period)
  {
    var j := StartIsMultiple(t, period);
    var k := StartIsMultiple(u, period);
    hide PeriodStart;
    MultiplesInOrder(period, k, j);
    MultiplesInOrder(period, j, k);
    MultiplesInOrder(period, k, 0);
    MultiplesInOrder(period, 0, k);
  }

  ghost predicate Proper(c: Cut, period: int)
    requires period > 0
  {
    SamePeriod(c.current, period) && forall k | 0 <= k < |c.done| :: c.done[k].run != [] && SamePeriod(c.done[k].run, period)
  }

  function StartOf(run: seq<Event>, period: int): int
    requires period > 0 && run != [] && run[0].Tick?
  {
    PeriodStart(run[0].ts, period)
  }

  /** The finished candles, and then the open one, in increasing periods; everything so far is not after `now`. */
  ghost predicate Increasing(c: Cut, period: int, now: int)
    requires period > 0 && Proper(c, period)
  {
    && (forall j, k | 0 <= j < k < |c.done| :: StartOf(c.done[j].run, period) < StartOf(c.done[k].run, period))
    && (c.current != [] ==>
          && StartOf(c.current, period) <= PeriodStart(now, period)
          && forall j | 0 <= j < |c.done| :: StartOf(c.done[j].run, period) < StartOf(c.current, period))
    && (c.current == [] ==> forall j | 0 <= j < |c.done| :: StartOf(c.done[j].run, period) < PeriodStart(now, period))
  }

  lemma NextInOrder(c: Cut, e: Event, period: int, now: int)
    requires period > 0 && Proper(c, period) && Increasing(c, period, now) && now <= TimeOf(e)
    ensures Proper(CutNext(c, e, period), period) && Increasing(CutNext(c, e, period), period, TimeOf(e))
  {
    PeriodsAdvance(now, TimeOf(e), period);
    if c.current != [] {
      PeriodsAdvance(c.current[0].ts, TimeOf(e), period);
    }
    hide PeriodStart;
  }

  /** When events come in time order, candles come in strictly increasing time, and the open one is the latest. */
  lemma {:induction false} TimestampsIncrease(events: seq<Event>, period: int)
    requires period > 0 && InOrder(events)
    ensures Proper(CutUp(events, period), period)
    ensures events != [] ==> Increasing(CutUp(events, period), period, TimeOf(events[|events| - 1]))
    ensures var s := CandlesOf(CutUp(events, period).done, period);
      forall j, k | 0 <= j < k < |s| :: s[j].timestamp < s[k].timestamp
  {
    hide PeriodStart, CutNext;
    if events != [] {
      var n := |events| - 1;
      TimestampsIncrease(events[..n], period);
      NextInOrder(CutUp(events[..n], period), events[n], period, if n == 0 then TimeOf(events[n]) else TimeOf(events[n - 1]));
    }
  }

  // ----------------------------------------------- hours are made of shorter candles

  /** The maximal runs of consecutive ticks of the same period. */
  function Runs(ticks: seq<Event>, period: int): (runs: seq<seq<Event>>)
    requires period > 0 && AreTicks(ticks)
    ensures runs == [] <==> ticks == []
    ensures forall k | 0 <= k < |runs| :: runs[k] != [] && SamePeriod(runs[k], period)
  {
    if ticks == [] then []
    else
      var n := |ticks| - 1;
      var runs, t := Runs(ticks[..n], period), ticks[n];
      if runs != [] && StartOf(runs[|runs| - 1], period) == PeriodStart(t.ts, period) then
        runs[|runs| - 1 := runs[|runs| - 1] + [t]]
      else runs + [[t]]
  }

  function RunsIn(c: Cut): (runs: seq<seq<Event>>)
    ensures |runs| == |c.done| + if c.current == [] then 0 else 1
    ensures forall k | 0 <= k < |c.done| :: runs[k] == c.done[k].run
    ensures c.current != [] ==> runs[|c.done|] == c.current
  {
    seq(|c.done|, k requires 0 <= k < |c.done| => c.done[k].run) + if c.current == [] then [] else [c.current]
  }

  /** Without polls, a builder cuts the ticks into maximal runs: neighbours are of different periods. */
  lemma {:induction false} TicksAloneAreCutIntoRuns(ticks: seq<Event>, period: int)
    requires period > 0 && AreTicks(ticks)
    ensures RunsIn(CutUp(ticks, period)) == Runs(ticks, period)
    ensures ticks != [] ==> CutUp(ticks, period).current != []
    ensures var runs := Runs(ticks, period);
      forall k | 0 <= k < |runs| - 1 :: StartOf(runs[k], period) != StartOf(runs[k + 1], period)
  {
    hide PeriodStart;
    if ticks != [] {
      var n := |ticks| - 1;
      TicksAloneAreCutIntoRuns(ticks[..n], period);
      var c := CutUp(ticks[..n], period);
      assert n > 0 ==> RunsIn(c)[|RunsIn(c)| - 1] == c.current;
      assert ticks[n].Tick?;
    }
  }

  function Concat(runs: seq<seq<Event>>): seq<Event> {
    if runs == [] then [] else Concat(runs[..|runs| - 1]) + runs[|runs| - 1]
  }

  predicate AreRuns(runs: seq<seq<Event>>) {
    forall k | 0 <= k < |runs| :: runs[k] != [] && AreTicks(runs[k])
  }

  /** The sums of several runs merged in order. */
  function MergeAll(runs: seq<seq<Event>>): Ohlcv
    requires runs != [] && AreRuns(runs)
  {
    var n := |runs| - 1;
    if n == 0 then Fold(runs[0]) else Merge(MergeAll(runs[..n]), Fold(runs[n]))
  }

  lemma {:induction false} FoldOfBoth(a: seq<Event>, b: seq<Event>)
    requires a != [] && b != [] && AreTicks(a) && AreTicks(b)
    ensures Fold(a + b) == Merge(Fold(a), Fold(b))
  {
    var n := |b| - 1;
    assert (a + b)[..|a + b| - 1] == a + b[..n];
    if n == 0 {
      assert a + b[..0] == a;
    } else {
      FoldOfBoth(a, b[..n]);
    }
  }

  lemma {:induction false} FoldOfRuns(runs: seq<seq<Event>>)
    requires runs != [] && AreRuns(runs)
    ensures Concat(runs) != [] && AreTicks(Concat(runs)) && Fold(Concat(runs)) == MergeAll(runs)
  {
    var n := |runs| - 1;
    if n == 0 {
      assert Concat(runs[..0]) == [];
      assert Concat(runs) == runs[0];
    } else {
      FoldOfRuns(runs[..n]);
      FoldOfBoth(Concat(runs[..n]), runs[n]);
    }
  }

  /** The hour of a time is the hour of its shorter period: `n - n % 3600` of `n - n % period`. */
  lemma HourOfPeriod(n: nat, period: int)
    requires period == M1_SECS || period == M5_SECS
    ensures n - n % H1_SECS == (n - n % period) - (n - n % period) % H1_SECS
  {
    if period == M1_SECS {
      var a, r := n / 60, n % 60;
      var b, c := a / 60, a % 60;
      assert n == 3600 * b + (60 * c + r);
      assert n / 3600 == b && (n - r) / 3600 == b;
    } else {
      var a, r := n / 300, n % 300;
      var b, c := a / 12, a % 12;
      assert n == 3600 * b + (300 * c + r);
      assert n / 3600 == b && (n - r) / 3600 == b;
    }
  }

  lemma HourOfStart(t: int, period: int)
    requires period == M1_SECS || period == M5_SECS
    ensures PeriodStart(t, H1_SECS) == PeriodStart(PeriodStart(t, period), H1_SECS)
  {
    HourOfPeriod(if t >= 0 then t else -t, period);
  }

  lemma PeriodsNest(t: int, u: int, period: int)
    requires period == M1_SECS || period == M5_SECS
    requires PeriodStart(t, period) == PeriodStart(u, period)
    ensures PeriodStart(t, H1_SECS) == PeriodStart(u, H1_SECS)
  {
    HourOfStart(t, period);
    HourOfStart(u, period);
  }

  /** Run `j` of the hours is the runs of the shorter period from `lo` to `hi`, one after the other. */
  ghost predicate Groups(short: seq<seq<Event>>, run: seq<Event>, lo: nat, hi: nat) {
    lo < hi <= |short| && run == Concat(short[lo..hi])
  }

  /** `cuts` splits the shorter runs into groups, one for each hour. */
  ghost predicate GroupedBy(short: seq<seq<Event>>, long: seq<seq<Event>>, cuts: seq<nat>) {
    && |cuts| == |long| + 1 && cuts[0] == 0 && cuts[|long|] == |short|
    && forall j | 0 <= j < |long| :: Groups(short, long[j], cuts[j], cuts[j + 1])
  }

  /** Another tick of the last short run. */
  lemma GroupsAbsorb(short: seq<seq<Event>>, run: seq<Event>, lo: nat, t: Event)
    requires Groups(short, run, lo, |short|)
    ensures var n := |short| - 1;
      Groups(short[n := short[n] + [t]], run + [t], lo, |short|)
  {
    var n := |short| - 1;
    var next := short[n := short[n] + [t]];
    assert short[lo..][..n - lo] == short[lo..n] == next[lo..n] == next[lo..][..n - lo];
    assert short[lo..|short|] == short[lo..] && next[lo..|short|] == next[lo..];
  }

  /** A new short run in the same hour. */
  lemma GroupsGrow(short: seq<seq<Event>>, run: seq<Event>, lo: nat, t: Event)
    requires Groups(short, run, lo, |short|)
    ensures Groups(short + [[t]], run + [t], lo, |short| + 1)
  {
    var next := short + [[t]];
    assert next[lo..|short| + 1][..|short| - lo] == short[lo..|short|];
  }

  lemma GroupsStay(short: seq<seq<Event>>, next: seq<seq<Event>>, run: seq<Event>, lo: nat, hi: nat)
    requires Groups(short, run, lo, hi) && hi <= |next| && short[..hi] == next[..hi]
    ensures Groups(next, run, lo, hi)
  {
    assert short[lo..hi] == short[..hi][lo..] == next[..hi][lo..] == next[lo..hi];
  }

  lemma SingleGroup(short: seq<seq<Event>>, t: Event)
    ensures Groups(short + [[t]], [t], |short|, |short| + 1)
  {
    var next := short + [[t]];
    assert next[|short|..|short| + 1] == [[t]];
    assert Concat([[t]][..0]) == [] && Concat([[t]]) == [t];
  }

  /** The same step of both cuts: in the current hour and short run, in the current hour only, or in neither. */
  ghost predicate GrowsTo(runs: seq<seq<Event>>, next: seq<seq<Event>>, t: Event, same: bool) {
    if same then runs != [] && next == runs[|runs| - 1 := runs[|runs| - 1] + [t]] else next == runs + [[t]]
  }

  lemma GroupedNext(
      short: seq<seq<Event>>, long: seq<seq<Event>>, cuts: seq<nat>,
      short': seq<seq<Event>>, long': seq<seq<Event>>, t: Event, sameShort: bool, sameLong: bool) returns (cuts': seq<nat>)
    requires GroupedBy(short, long, cuts) && (sameShort ==> sameLong)
    requires GrowsTo(short, short', t, sameShort) && GrowsTo(long, long', t, sameLong)
    ensures GroupedBy(short', long', cuts')
  {
    hide Groups;
    var n := |long|;
    if sameLong {
      assert Groups(short, long[n - 1], cuts[n - 1], cuts[n - 1 + 1]);
      if sameShort {
        GroupsAbsorb(short, long[n - 1], cuts[n - 1], t);
      } else {
        GroupsGrow(short, long[n - 1], cuts[n - 1], t);
      }
      cuts' := cuts[n := |short'|];
    } else {
      SingleGroup(short, t);
      cuts' := cuts + [|short'|];
    }
    forall j | 0 <= j < |long'| ensures Groups(short', long'[j], cuts'[j], cuts'[j + 1]) {
      if j < n && !(sameLong && j == n - 1) {
        GroupEnds(short, long, cuts, j);
        GroupsStay(short, short', long[j], cuts[j], cuts[j + 1]);
      }
    }
  }

  /** A group that is not the last one ends before the last short run. */
  lemma {:induction false} GroupEnds(short: seq<seq<Event>>, long: seq<seq<Event>>, cuts: seq<nat>, j: nat)
    requires GroupedBy(short, long, cuts) && j < |long|
    ensures cuts[j + 1] <= |short| && (j + 1 < |long| ==> cuts[j + 1] < |short|)
    decreases |long| - j
  {
    assert Groups(short, long[j], cuts[j], cuts[j + 1]);
    if j + 1 < |long| {
      assert Groups(short, long[j + 1], cuts[j + 1], cuts[j + 1 + 1]);
    }
  }

  lemma {:induction false} HoursAreGroups(ticks: seq<Event>, period: int) returns (cuts: seq<nat>)
    requires AreTicks(ticks) && (period == M1_SECS || period == M5_SECS)
    ensures GroupedBy(Runs(ticks, period), Runs(ticks, H1_SECS), cuts)
    ensures ticks != [] ==> EndsWith(Runs(ticks, period), ticks[|ticks| - 1]) && EndsWith(Runs(ticks, H1_SECS), ticks[|ticks| - 1])
  {
    hide PeriodStart, GroupedBy;
    if ticks == [] {
      cuts := [0];
      NoGroups();
    } else {
      var n := |ticks| - 1;
      var t := ticks[n];
      cuts := HoursAreGroups(ticks[..n], period);
      var short, long := Runs(ticks[..n], period), Runs(ticks[..n], H1_SECS);
      var sameShort := short != [] && StartOf(short[|short| - 1], period) == PeriodStart(t.ts, period);
      var sameLong := long != [] && StartOf(long[|long| - 1], H1_SECS) == PeriodStart(t.ts, H1_SECS);
      if sameShort {
        PeriodsNest(ticks[n - 1].ts, t.ts, period);
      }
      cuts := GroupedNext(short, long, cuts, Runs(ticks, period), Runs(ticks, H1_SECS), t, sameShort, sameLong);
    }
  }

  predicate EndsWith(runs: seq<seq<Event>>, t: Event) {
    runs != [] && runs[|runs| - 1] != [] && runs[|runs| - 1][|runs[|runs| - 1]| - 1] == t
  }

  lemma NoGroups()
    ensures GroupedBy([], [], [0])
  {
  }

  /** The sum of an hour's run is the merge of the shorter sums from `lo` to `hi`. */
  ghost predicate MergesTo(short: seq<seq<Event>>, lo: nat, hi: nat, run: seq<Event>)
    requires AreRuns(short) && run != [] && AreTicks(run)
  {
    lo < hi <= |short| && Fold(run) == MergeAll(short[lo..hi])
  }

  lemma GroupMerges(short: seq<seq<Event>>, run: seq<Event>, lo: nat, hi: nat)
    requires AreRuns(short) && run != [] && AreTicks(run) && Groups(short, run, lo, hi)
    ensures MergesTo(short, lo, hi, run)
  {
    FoldOfRuns(short[lo..hi]);
  }

  /**
   On the same ticks, the hourly candle is the merge of the shorter candles of the
   hour: the first open, the extremes, the last close and the whole volume.
   */
  lemma HourIsMadeOfItsCandles(ticks: seq<Event>, period: int) returns (cuts: seq<nat>)
    requires AreTicks(ticks) && (period == M1_SECS || period == M5_SECS)
    ensures var short, long := Runs(ticks, period), Runs(ticks, H1_SECS);
      && |cuts| == |long| + 1 && cuts[0] == 0 && cuts[|long|] == |short|
      && AreRuns(short) && AreRuns(long)
      && forall j | 0 <= j < |long| :: MergesTo(short, cuts[j], cuts[j + 1], long[j])
  {
    hide PeriodStart, Groups;
    cuts := HoursAreGroups(ticks, period);
    var short, long := Runs(ticks, period), Runs(ticks, H1_SECS);
    hide Runs, MergesTo;
    forall j | 0 <= j < |long| ensures MergesTo(short, cuts[j], cuts[j + 1], long[j]) {
      assert Groups(short, long[j], cuts[j], cuts[j + 1]);
      GroupMerges(short, long[j], cuts[j], cuts[j + 1]);
    }
  }
}

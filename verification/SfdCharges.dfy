/** The charges of a run of the SFD accrual, told by what its ticks read. */
module SfdCharges {
  import opened RealArith
  import opened Wrappers
  import opened Sizing
  import opened SfdAccrual

  // --------------------------------------------------------------------- the fee

  function Gap(fx: real, spot: real): real { if fx >= spot then fx - spot else spot - fx }

  /** The daily rate by the share of the spot price that the prices are apart: 5, 10, 15 and 20 percent. */
  function RateByGap(gap: real, spot: real): real {
    if 20.0 * gap < spot then 0.0
    else if 10.0 * gap < spot then 0.0025
    else if 20.0 * gap < 3.0 * spot then 0.005
    else if 5.0 * gap < spot then 0.01
    else 0.03
  }

  /** `size` is a 24th of `x`, without its fraction. */
  predicate IsHourlyPart(size: int, x: real) {
    var s := size as real;
    if x >= 0.0 then 24.0 * s <= x < 24.0 * (s + 1.0) else 24.0 * (s - 1.0) < x <= 24.0 * s
  }

  /** A fee whose size is a 24th of `due`. */
  ghost predicate IsPartOf(fee: real, due: real, pays: bool) {
    exists size: int :: IsHourlyPart(size, due) && fee == if pays then size as real else -(size as real)
  }

  /**
   The fee of an hour: a 24th of the daily rate of the notional, without its
   fraction, paid by the longs when the price is above the spot price and by the
   shorts when it is below, and received by the others.
   */
  ghost predicate IsHourlyFee(fee: real, fx: real, spot: real, notional: real, d: Direction) {
    if spot <= 0.0 || RateByGap(Gap(fx, spot), spot) == 0.0 then fee == 0.0
    else IsPartOf(fee, notional * RateByGap(Gap(fx, spot), spot), (fx >= spot) == d.Long?)
  }

  lemma LessThanShare(gap: real, spot: real, c: real)
    requires spot > 0.0
    ensures gap / spot < c <==> gap < c * spot
  {
    var q := gap / spot;
    assert q * spot == gap;
    if q < c {
      MulLess(q, c, spot);
    } else {
      MulLeq(c, q, spot);
    }
  }

  lemma DivergenceIsTheGap(fx: real, spot: real)
    requires spot > 0.0
    ensures Abs((fx - spot) / spot) == Gap(fx, spot) / spot
    ensures (fx - spot) / spot >= 0.0 <==> fx >= spot
  {
    var q := (fx - spot) / spot;
    assert q * spot == fx - spot;
    if fx >= spot {
      DivLeq(0.0, fx - spot, spot);
    } else {
      MulLeqZero(q, spot);
      DivIs(spot - fx, spot, -q);
    }
  }

  lemma MulLeqZero(q: real, c: real)
    requires q * c < 0.0 && c > 0.0
    ensures q < 0.0
  {
    if q >= 0.0 {
      MulLeq(0.0, q, c);
    }
  }

  lemma RateIsByGap(fx: real, spot: real)
    requires spot > 0.0
    ensures DailyRate((fx - spot) / spot) == RateByGap(Gap(fx, spot), spot)
  {
    var gap := Gap(fx, spot);
    DivergenceIsTheGap(fx, spot);
    LessThanShare(gap, spot, 0.05);
    LessThanShare(gap, spot, 0.10);
    LessThanShare(gap, spot, 0.15);
    LessThanShare(gap, spot, 0.20);
    hide Abs;
  }

  lemma HourlyPart(x: real) returns (size: int)
    ensures Truncate(x / 24.0) == size as real && IsHourlyPart(size, x)
  {
    var q := x / 24.0;
    size := if q >= 0.0 then q.Floor else -((-q).Floor);
  }

  lemma OnePart(fee: real, due: real, pays: bool, size: int)
    requires IsHourlyPart(size, due)
    ensures IsPartOf(fee, due, pays) <==> fee == if pays then size as real else -(size as real)
  {
    forall k: int | IsHourlyPart(k, due) ensures k == size {
    }
  }

  lemma HourlyFeeIs(m: Mids, notional: real, d: Direction, fee: real)
    ensures fee == HourlySfd(m, notional, d) <==> IsHourlyFee(fee, m.fx, m.spot, notional, d)
  {
    if m.spot > 0.0 {
      RateIsByGap(m.fx, m.spot);
      DivergenceIsTheGap(m.fx, m.spot);
      var rate := RateByGap(Gap(m.fx, m.spot), m.spot);
      var size := HourlyPart(notional * rate);
      OnePart(fee, notional * rate, (m.fx >= m.spot) == d.Long?, size);
      hide DailyRate, Truncate, RateByGap, Gap, IsHourlyPart, IsPartOf, Abs;
    }
  }

  /** Who pays: with a positive notional a long pays only above the spot price, and a short the opposite of a long. */
  lemma WhoPays(fee: real, other: real, fx: real, spot: real, notional: real)
    requires IsHourlyFee(fee, fx, spot, notional, Long) && notional > 0.0
    ensures fee > 0.0 ==> fx > spot > 0.0
    ensures fee < 0.0 ==> spot > fx
    ensures IsHourlyFee(other, fx, spot, notional, Short) <==> other == -fee
  {
    var rate := RateByGap(Gap(fx, spot), spot);
    if spot > 0.0 && rate != 0.0 {
      var due := notional * rate;
      Positive(notional, rate);
      var size := HourlyPart(due);
      assert size >= 0 && fx != spot;
      OnePart(fee, due, fx >= spot, size);
      OnePart(other, due, !(fx >= spot), size);
      hide RateByGap, Gap, IsPartOf, IsHourlyPart;
    }
  }

  // ----------------------------------------------------------- the last hour of a run

  predicate IsPaperOnBitflyer(a: Account) { a.accountType == "paper" && a.isBitflyer }

  predicate HasPaper(t: Tick) {
    t.accounts.Some? && exists i | 0 <= i < |t.accounts.value| :: IsPaperOnBitflyer(t.accounts.value[i])
  }

  predicate IsQuoted(f: Feed) { f.ageSecs.Some? && f.ageSecs.value <= 300 && f.bidAsk.Some? }

  /** The clock and the accounts are read and, if there is a paper account, its open trades and, for those, both prices. */
  predicate GetsThrough(t: Tick) {
    && t.hour.Some? && t.accounts.Some?
    && (HasPaper(t) ==> t.openTargets.Some? && (t.openTargets.value != 0 ==> IsQuoted(t.fx) && IsQuoted(t.spot)))
  }

  /** The first tick whose clock is read, if there is one. */
  function FirstClocked(ticks: seq<Tick>): (f: nat)
    ensures f <= |ticks| && (f < |ticks| ==> ticks[f].hour.Some?)
    ensures forall m | 0 <= m < f :: ticks[m].hour.None?
  {
    if ticks == [] then 0
    else
      var n := |ticks| - 1;
      var f := FirstClocked(ticks[..n]);
      if f < n || ticks[n].hour.Some? then f else n + 1
  }

  /** The first hour, or that of a later tick that got through, is at or after `h`. */
  ghost predicate HasReached(ticks: seq<Tick>, h: int) {
    var f := FirstClocked(ticks);
    && f < |ticks|
    && (h <= ticks[f].hour.value
        || exists m :: f < m < |ticks| && GetsThrough(ticks[m]) && h <= ticks[m].hour.value)
  }

  lemma OneMoreTick(ticks: seq<Tick>, h: int)
    requires ticks != []
    ensures var n := |ticks| - 1;
      var f := FirstClocked(ticks[..n]);
      HasReached(ticks, h) <==>
        if f < n then HasReached(ticks[..n], h) || (GetsThrough(ticks[n]) && h <= ticks[n].hour.value)
        else ticks[n].hour.Some? && h <= ticks[n].hour.value
  {
    hide HasPaper, IsQuoted;
    var n := |ticks| - 1;
    var front := ticks[..n];
    assert forall m | 0 <= m < n :: front[m] == ticks[m];
  }

  lemma FreshIsQuoted(t: Tick)
    ensures FreshMids(t).Some? <==> IsQuoted(t.fx) && IsQuoted(t.spot)
    ensures t.accounts.Some? ==> (HasTargetAccount(t.accounts.value) <==> HasPaper(t))
  {
    if t.accounts.Some? {
      assert forall i | 0 <= i < |t.accounts.value| :: t.accounts.value[i].IsTarget() <==> IsPaperOnBitflyer(t.accounts.value[i]);
    }
  }

  lemma NextLast(last: int, t: Tick)
    ensures OutcomeOf(Some(last), t).last
         == if GetsThrough(t) && last < t.hour.value then t.hour else Some(last)
  {
    FreshIsQuoted(t);
    hide HasTargetAccount, HasPaper, FreshMids, IsQuoted, PendingCharges;
  }

  /** The last hour of a run is the latest of its first hour and the hours of the later ticks that got through. */
  lemma {:induction false} LastIsTheLatest(ticks: seq<Tick>)
    ensures StateOf(ticks).last.Some? <==> FirstClocked(ticks) < |ticks|
    ensures StateOf(ticks).last.Some? ==> forall h :: h <= StateOf(ticks).last.value <==> HasReached(ticks, h)
  {
    if ticks != [] {
      var n := |ticks| - 1;
      LastIsTheLatest(ticks[..n]);
      var last := StateOf(ticks[..n]).last;
      if last.Some? {
        NextLast(last.value, ticks[n]);
      }
      hide HasReached, GetsThrough;
      forall h ensures StateOf(ticks).last.Some? ==> (h <= StateOf(ticks).last.value <==> HasReached(ticks, h)) {
        OneMoreTick(ticks, h);
      }
    }
  }

  /** Tick `n` is the first after the run has begun that gets through at or after the hour, and the run began before it. */
  predicate IsResolvedBy(ticks: seq<Tick>, n: nat, h: int) {
    var f := FirstClocked(ticks);
    && f < n < |ticks| && ticks[f].hour.value < h
    && GetsThrough(ticks[n]) && h <= ticks[n].hour.value
    && forall m | f < m < n && GetsThrough(ticks[m]) :: ticks[m].hour.value < h
  }

  lemma {:induction false} SameFirst(ticks: seq<Tick>, n: nat)
    requires n <= |ticks|
    ensures FirstClocked(ticks[..n]) < n <==> FirstClocked(ticks) < n
    ensures FirstClocked(ticks) < n ==> FirstClocked(ticks[..n]) == FirstClocked(ticks)
  {
    var f, g := FirstClocked(ticks), FirstClocked(ticks[..n]);
    assert forall m | 0 <= m < n :: ticks[..n][m] == ticks[m];
    if f < n {
      assert ticks[..n][f] == ticks[f];
    }
    if g < n {
      assert ticks[..n][g] == ticks[g];
    }
  }

  lemma ResolvedAsRead(ticks: seq<Tick>, n: nat, h: int)
    ensures Resolves(ticks, n, h) <==> IsResolvedBy(ticks, n, h)
  {
    if n < |ticks| {
      var front := ticks[..n];
      LastIsTheLatest(front);
      SameFirst(ticks, n);
      var last := StateOf(front).last;
      if last.Some? {
        NextLast(last.value, ticks[n]);
        assert h <= last.value <==> HasReached(front, h);
      }
      hide StateOf, OutcomeOf, GetsThrough;
      assert forall m | 0 <= m < n :: front[m] == ticks[m];
    }
  }

  // --------------------------------------------------------------- every charge of a run

  function MidOf(f: Feed): real
    requires f.bidAsk.Some?
  {
    (f.bidAsk.value.0 + f.bidAsk.value.1) / 2.0
  }

  /**
   Tick `n` resolves the hour, has open trades to charge, and comes less than 24 hours
   after it. Trade `p` of its account `k`, as read for the hour, was open by then, and
   its fee by the prices of the tick is not zero and can be written.
   */
  ghost predicate IsChargeOf(ticks: seq<Tick>, n: nat, k: nat, p: nat, c: Charge) {
    && IsResolvedBy(ticks, n, c.hour)
    && var t := ticks[n];
    && HasPaper(t) && t.openTargets.value != 0 && t.hour.value - 24 < c.hour
    && k < |t.accounts.value|
    && var a := t.accounts.value[k];
    && IsPaperOnBitflyer(a) && a.id == c.accountId
    && a.openTrades(c.hour).Some? && p < |a.openTrades(c.hour).value|
    && IsFeeOf(t, a.openTrades(c.hour).value[p], c)
  }

  ghost predicate IsFeeOf(t: Tick, x: OpenTrade, c: Charge)
    requires IsQuoted(t.fx) && IsQuoted(t.spot)
  {
    && x.id == c.tradeId && x.pair == "FX_BTC_JPY" && x.entryAt <= c.hour * 3600
    && t.write(x.id, c.hour) == Applied
    && c.fee != 0.0 && IsFeeFor(c.fee, MidOf(t.fx), MidOf(t.spot), x.entryPrice, x.quantity, x.direction)
  }

  lemma FeeAsRead(t: Tick, x: OpenTrade, accountId: int, c: Charge)
    requires IsQuoted(t.fx) && IsQuoted(t.spot)
    ensures FreshMids(t).Some?
    ensures OfTrade(c, accountId, x, c.hour, FreshMids(t).value, t.write) <==> IsFeeOf(t, x, c) && c.accountId == accountId
  {
    hide FeeFor, IsFeeFor;
    assert FreshMids(t) == Some(Mids(MidOf(t.fx), MidOf(t.spot)));
    FeeForIs(FreshMids(t).value, x.entryPrice, x.quantity, x.direction, c.fee);
    hide FreshMids, IsQuoted;
  }

  /** The fee of a position is that of its value at the entry. */
  ghost predicate IsFeeFor(fee: real, fx: real, spot: real, entryPrice: real, quantity: real, d: Direction) {
    IsHourlyFee(fee, fx, spot, entryPrice * quantity, d)
  }

  lemma FeeForIs(m: Mids, entryPrice: real, quantity: real, d: Direction, fee: real)
    ensures fee == FeeFor(m, entryPrice, quantity, d) <==> IsFeeFor(fee, m.fx, m.spot, entryPrice, quantity, d)
  {
    hide HourlySfd, IsHourlyFee;
    HourlyFeeIs(m, entryPrice * quantity, d, fee);
  }

  lemma ChargeRead(ticks: seq<Tick>, n: nat, c: Charge) returns (k: nat, p: nat)
    requires MadeAt(ticks, n, c)
    ensures IsChargeOf(ticks, n, k, p, c)
  {
    var t := ticks[n];
    ResolvedAsRead(ticks, n, c.hour);
    FreshIsQuoted(t);
    hide Resolves, IsResolvedBy, FreshMids, IsQuoted, HasTargetAccount, HasPaper;
    var m := FreshMids(t).value;
    k :| 0 <= k < |t.accounts.value| && OfAccount(c, t.accounts.value[k], c.hour, m, t.write);
    var a := t.accounts.value[k];
    hide OfSomeAccount;
    p :| 0 <= p < |a.openTrades(c.hour).value| && OfTrade(c, a.id, a.openTrades(c.hour).value[p], c.hour, m, t.write);
    FeeAsRead(t, a.openTrades(c.hour).value[p], a.id, c);
    hide OfTrade, IsFeeOf, OfAccount;
  }

  lemma ReadCharge(ticks: seq<Tick>, n: nat, k: nat, p: nat, c: Charge)
    requires IsChargeOf(ticks, n, k, p, c)
    ensures MadeAt(ticks, n, c)
  {
    var t := ticks[n];
    var a := t.accounts.value[k];
    ResolvedAsRead(ticks, n, c.hour);
    FreshIsQuoted(t);
    FeeAsRead(t, a.openTrades(c.hour).value[p], a.id, c);
    hide Resolves, IsFeeOf, OfTrade, FreshMids, HasTargetAccount, HasPaper;
    assert OfAccount(c, a, c.hour, FreshMids(t).value, t.write);
    hide OfAccount;
    assert OfSomeAccount(c, t.accounts.value, c.hour, FreshMids(t).value, t.write);
  }

  /**
   The charges of a run: for an hour that a tick resolves in time, each open trade on
   FX_BTC_JPY of a paper account, with the fee that the prices of that tick make.
   */
  lemma ChargesAreThoseOfTheReads(ticks: seq<Tick>, c: Charge)
    ensures c in StateOf(ticks).charges <==> exists n: nat, k: nat, p: nat :: IsChargeOf(ticks, n, k, p, c)
  {
    ChargedExactlyWhen(ticks, c);
    hide StateOf, MadeAt, IsChargeOf;
    if n: nat :| MadeAt(ticks, n, c) {
      var k, p := ChargeRead(ticks, n, c);
    }
    if n: nat, k: nat, p: nat :| IsChargeOf(ticks, n, k, p, c) {
      ReadCharge(ticks, n, k, p, c);
    }
  }
}

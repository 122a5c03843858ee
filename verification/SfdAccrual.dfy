/**
 The hourly SFD charges of `crates/app/src/runtime/sfd_accrual.rs`. Hours are
 numbered; whatever the database and the price store answer in a tick is an input.
 */
module SfdAccrual {
  import opened RealArith
  import opened Wrappers
  import opened Sizing

  const SFD_MAX_CATCH_UP_HOURS := 24
  const SFD_STALE_THRESHOLD_SECS := 300
  const HOUR_SECS := 3600

  // ------------------------------------------------------------------- inputs

  datatype OpenTrade = OpenTrade(id: int, pair: string, direction: Direction, entryPrice: real, quantity: real, entryAt: int)

  /**
   `isBitflyer` says whether the exchange name parses as bitFlyer. The open trades
   are read again for each hour; `openTrades(hour)` is None when that fails.
   */
  datatype Account = Account(id: int, accountType: string, isBitflyer: bool, openTrades: int -> Option<seq<OpenTrade>>)
  {
    predicate IsTarget() { accountType == "paper" && isBitflyer }
  }

  datatype Feed = Feed(ageSecs: Option<nat>, bidAsk: Option<(real, real)>)

  /** How writing a fee goes: the trade may have been closed since it was read. */
  datatype Write = Applied | NotOpenAnyMore | WriteFailed

  /** By the trade and the hour. */
  type Writes = (int, int) -> Write

  /** `hour` is None when the clock cannot be truncated, the other Nones are failed reads. */
  datatype Tick = Tick(
    hour: Option<int>, accounts: Option<seq<Account>>, openTargets: Option<int>, fx: Feed, spot: Feed, write: Writes)

  datatype Mids = Mids(fx: real, spot: real)

  function Mid(bidAsk: (real, real)): real { (bidAsk.0 + bidAsk.1) / 2.0 }

  predicate Fresh(feed: Feed) { feed.ageSecs.Some? && feed.ageSecs.value <= SFD_STALE_THRESHOLD_SECS }

  function FreshMids(tick: Tick): Option<Mids> {
    if Fresh(tick.fx) && Fresh(tick.spot) && tick.fx.bidAsk.Some? && tick.spot.bidAsk.Some? then
      Some(Mids(Mid(tick.fx.bidAsk.value), Mid(tick.spot.bidAsk.value)))
    else None
  }

  predicate HasTargetAccount(accounts: seq<Account>) {
    exists i | 0 <= i < |accounts| :: accounts[i].IsTarget()
  }

  // --------------------------------------------------------------- one charge

  function DailyRate(divergence: real): real {
    var d := Abs(divergence);
    if d < 0.05 then 0.0 else if d < 0.10 then 0.0025 else if d < 0.15 then 0.005 else if d < 0.20 then 0.01 else 0.03
  }

  function HourlySfd(m: Mids, notional: real, direction: Direction): real {
    if m.spot <= 0.0 then 0.0
    else
      var divergence := (m.fx - m.spot) / m.spot;
      var rate := DailyRate(divergence);
      if rate == 0.0 then 0.0
      else
        var magnitude := Truncate(notional * rate / 24.0);
        if (divergence >= 0.0) == direction.Long? then magnitude else -magnitude
  }

  datatype Charge = Charge(accountId: int, tradeId: int, hour: int, fee: real)

  function FeeFor(m: Mids, entryPrice: real, quantity: real, direction: Direction): real {
    HourlySfd(m, entryPrice * quantity, direction)
  }

  function FeeOf(t: OpenTrade, m: Mids): real { FeeFor(m, t.entryPrice, t.quantity, t.direction) }

  /** Whether an open trade is due for `hour`. */
  predicate IsDue(t: OpenTrade, hour: int, m: Mids) {
    t.pair == "FX_BTC_JPY" && FeeOf(t, m) != 0.0 && t.entryAt <= hour * HOUR_SECS
  }

  function TradesCharges(accountId: int, trades: seq<OpenTrade>, hour: int, m: Mids, w: Writes): seq<Charge> {
    if trades == [] then []
    else
      var t := trades[|trades| - 1];
      TradesCharges(accountId, trades[..|trades| - 1], hour, m, w)
      + if IsDue(t, hour, m) && w(t.id, hour).Applied? then [Charge(accountId, t.id, hour, FeeOf(t, m))] else []
  }

  function AccountCharges(a: Account, hour: int, m: Mids, w: Writes): seq<Charge> {
    if a.IsTarget() && a.openTrades(hour).Some? then TradesCharges(a.id, a.openTrades(hour).value, hour, m, w) else []
  }

  /** The charges of one hour over all accounts. */
  function HourCharges(accounts: seq<Account>, hour: int, m: Mids, w: Writes): seq<Charge> {
    if accounts == [] then []
    else HourCharges(accounts[..|accounts| - 1], hour, m, w) + AccountCharges(accounts[|accounts| - 1], hour, m, w)
  }

  /** The charges of the `n` hours after `from`. */
  function PendingCharges(accounts: seq<Account>, from: int, n: nat, m: Mids, w: Writes): seq<Charge> {
    if n == 0 then [] else PendingCharges(accounts, from, n - 1, m, w) + HourCharges(accounts, from + n, m, w)
  }

  method ApplyToAccount(a: Account, lh: int, m: Mids, w: Writes) returns (charges: seq<Charge>)
    ensures charges == AccountCharges(a, lh + 1, m, w)
  {
    hide FeeOf;
    charges := [];
    if a.accountType != "paper" || !a.isBitflyer || a.openTrades(lh + 1).None? {
      return;
    }
    var trades := a.openTrades(lh + 1).value;
    for i := 0 to |trades|
      invariant charges == TradesCharges(a.id, trades[..i], lh + 1, m, w)
    {
      var t := trades[i];
      assert trades[..i + 1][..i] == trades[..i] && trades[..i + 1][i] == t;
      if t.pair == "FX_BTC_JPY" {
        var fee := FeeOf(t, m);
        var eventAt := (lh + 1) * HOUR_SECS;
        if fee != 0.0 && !(t.entryAt > eventAt) {
          if w(t.id, lh + 1).Applied? {
            charges := charges + [Charge(a.id, t.id, lh + 1, fee)];
          }
        }
      }
    }
    assert trades[..|trades|] == trades;
  }

  method ApplyPendingHours(accounts: seq<Account>, pending: nat, last: int, m: Mids, w: Writes)
    returns (lh: int, charges: seq<Charge>)
    ensures lh == last + pending && charges == PendingCharges(accounts, last, pending, m, w)
  {
    hide AccountCharges;
    lh, charges := last, [];
    for n := 0 to pending
      invariant lh == last + n && charges == PendingCharges(accounts, last, n, m, w)
    {
      ghost var before := charges;
      for i := 0 to |accounts|
        invariant charges == before + HourCharges(accounts[..i], lh + 1, m, w)
      {
        var more := ApplyToAccount(accounts[i], lh, m, w);
        assert accounts[..i + 1][..i] == accounts[..i];
        charges := charges + more;
      }
      assert accounts[..|accounts|] == accounts;
      lh := lh + 1;
    }
  }

  // ------------------------------------------------------------------ one tick

  /** What became of an hour: its charges were made, or it was too late, or nothing was open when it was resolved. */
  datatype Fate = Charged | Dropped | WithoutTarget

  datatype Entry = Entry(hour: int, fate: Fate)

  function Entries(from: int, to: int, fate: Fate): (s: seq<Entry>)
    ensures |s| == (if from <= to then to - from else 0)
    ensures forall i | 0 <= i < |s| :: s[i] == Entry(from + 1 + i, fate)
  {
    if from <= to then seq(to - from, i requires 0 <= i < to - from => Entry(from + 1 + i, fate)) else []
  }

  function Oldest(last: int, current: int): int {
    if current - last <= SFD_MAX_CATCH_UP_HOURS then last else current - SFD_MAX_CATCH_UP_HOURS
  }

  datatype Outcome = Outcome(last: Option<int>, entries: seq<Entry>, charges: seq<Charge>)

  /** Whether a due tick must wait: something that the charges need cannot be read. */
  predicate MustWait(t: Tick) {
    || t.accounts.None?
    || (HasTargetAccount(t.accounts.value)
        && (t.openTargets.None? || (t.openTargets.value != 0 && FreshMids(t).None?)))
  }

  predicate NothingToCharge(t: Tick) {
    t.accounts.Some? && (!HasTargetAccount(t.accounts.value) || t.openTargets == Some(0))
  }

  function OutcomeOf(last: Option<int>, t: Tick): Outcome {
    if t.hour.None? then Outcome(last, [], [])
    else if last.None? then Outcome(t.hour, [], [])
    else
      var lh, current := last.value, t.hour.value;
      if lh >= current || MustWait(t) then Outcome(last, [], [])
      else if NothingToCharge(t) then Outcome(t.hour, Entries(lh, current, WithoutTarget), [])
      else
        var from := Oldest(lh, current);
        Outcome(t.hour, Entries(lh, from, Dropped) + Entries(from, current, Charged),
                PendingCharges(t.accounts.value, from, current - from, FreshMids(t).value, t.write))
  }

  function ClampCatchUp(lh: int, current: int): (int, int) {
    var pending := current - lh;
    if pending <= SFD_MAX_CATCH_UP_HOURS then (lh, pending) else (current - SFD_MAX_CATCH_UP_HOURS, SFD_MAX_CATCH_UP_HOURS)
  }

  method ProcessTick(last: Option<int>, t: Tick) returns (last': Option<int>, charges: seq<Charge>)
    ensures last' == OutcomeOf(last, t).last && charges == OutcomeOf(last, t).charges
  {
    hide HourlySfd, PendingCharges;
    charges := [];
    if t.hour.None? {
      return last, [];
    }
    var current := t.hour.value;
    if last.None? {
      return Some(current), [];
    }
    if last.value + 1 > current {
      return last, [];
    }
    var (lh, pending) := ClampCatchUp(last.value, current);
    if t.accounts.None? {
      return last, [];
    }
    if !HasTargetAccount(t.accounts.value) {
      return Some(current), [];
    }
    if t.openTargets.None? {
      return last, [];
    }
    if t.openTargets.value == 0 {
      return Some(current), [];
    }
    var mids := FreshMids(t);
    if mids.None? {
      return last, [];
    }
    var next;
    next, charges := ApplyPendingHours(t.accounts.value, pending, lh, mids.value, t.write);
    return Some(next), charges;
  }

  // --------------------------------------------------------------- whole runs

  /** `first` is the hour the run started from; the ledger says what became of every later hour. */
  datatype State = State(first: Option<int>, last: Option<int>, ledger: seq<Entry>, charges: seq<Charge>)

  function After(s: State, t: Tick): State {
    var o := OutcomeOf(s.last, t);
    State(if s.first.None? then o.last else s.first, o.last, s.ledger + o.entries, s.charges + o.charges)
  }

  function StateOf(ticks: seq<Tick>): State {
    if ticks == [] then State(None, None, [], []) else After(StateOf(ticks[..|ticks| - 1]), ticks[|ticks| - 1])
  }

  method Run(ticks: seq<Tick>) returns (last: Option<int>, charges: seq<Charge>)
    ensures last == StateOf(ticks).last && charges == StateOf(ticks).charges
  {
    hide OutcomeOf;
    last, charges := None, [];
    for n := 0 to |ticks|
      invariant last == StateOf(ticks[..n]).last && charges == StateOf(ticks[..n]).charges
    {
      assert ticks[..n + 1][..n] == ticks[..n];
      var more;
      last, more := ProcessTick(last, ticks[n]);
      charges := charges + more;
    }
    assert ticks[..|ticks|] == ticks;
  }

  /** Every hour after the first one, up to the last one, is in the ledger exactly once and in order. */
  predicate Complete(s: State) {
    && (s.first.None? <==> s.last.None?)
    && (s.last.None? ==> s.ledger == [])
    && (s.last.Some? ==> s.first.value + |s.ledger| == s.last.value)
    && (forall i | 0 <= i < |s.ledger| :: s.first.Some? && s.ledger[i].hour == s.first.value + 1 + i)
  }

  lemma {:induction false} EveryHourHasOneFate(ticks: seq<Tick>)
    ensures Complete(StateOf(ticks))
  {
    if ticks != [] {
      EveryHourHasOneFate(ticks[..|ticks| - 1]);
      AfterIsComplete(StateOf(ticks[..|ticks| - 1]), ticks[|ticks| - 1]);
    }
  }

  lemma AfterIsComplete(s: State, t: Tick)
    requires Complete(s)
    ensures Complete(After(s, t))
  {
    hide PendingCharges, MustWait, NothingToCharge;
  }

  // ------------------------------------------------------ who is charged when

  ghost predicate OfTrade(c: Charge, accountId: int, t: OpenTrade, hour: int, m: Mids, w: Writes) {
    IsDue(t, hour, m) && w(t.id, hour).Applied? && c == Charge(accountId, t.id, hour, FeeOf(t, m))
  }

  lemma {:induction false} TradesChargesAre(
      accountId: int, trades: seq<OpenTrade>, hour: int, m: Mids, w: Writes, c: Charge)
    ensures c in TradesCharges(accountId, trades, hour, m, w)
       <==> exists p :: 0 <= p < |trades| && OfTrade(c, accountId, trades[p], hour, m, w)
  {
    hide IsDue, FeeOf;
    if trades != [] {
      var n := |trades| - 1;
      TradesChargesAre(accountId, trades[..n], hour, m, w, c);
      if c in TradesCharges(accountId, trades[..n], hour, m, w) {
        var p :| 0 <= p < n && OfTrade(c, accountId, trades[..n][p], hour, m, w);
        assert OfTrade(c, accountId, trades[p], hour, m, w);
      }
      if exists p :: 0 <= p < |trades| && OfTrade(c, accountId, trades[p], hour, m, w) {
        var p :| 0 <= p < |trades| && OfTrade(c, accountId, trades[p], hour, m, w);
        assert p < n ==> OfTrade(c, accountId, trades[..n][p], hour, m, w);
      }
    }
  }

  /** A charge of an hour belongs to a trade of a target account that is read as open then, is due, and can be written. */
  ghost predicate OfAccount(c: Charge, a: Account, hour: int, m: Mids, w: Writes) {
    && a.IsTarget() && a.openTrades(hour).Some?
    && exists p :: 0 <= p < |a.openTrades(hour).value| && OfTrade(c, a.id, a.openTrades(hour).value[p], hour, m, w)
  }

  ghost predicate OfSomeAccount(c: Charge, accounts: seq<Account>, hour: int, m: Mids, w: Writes) {
    exists k :: 0 <= k < |accounts| && OfAccount(c, accounts[k], hour, m, w)
  }

  lemma {:induction false} HourChargesAre(accounts: seq<Account>, hour: int, m: Mids, w: Writes, c: Charge)
    ensures c in HourCharges(accounts, hour, m, w) <==> OfSomeAccount(c, accounts, hour, m, w)
    ensures c in HourCharges(accounts, hour, m, w) ==> c.hour == hour
  {
    hide IsDue, FeeOf;
    if accounts != [] {
      var n := |accounts| - 1;
      var a := accounts[n];
      HourChargesAre(accounts[..n], hour, m, w, c);
      if a.openTrades(hour).Some? {
        TradesChargesAre(a.id, a.openTrades(hour).value, hour, m, w, c);
      }
      assert c in AccountCharges(a, hour, m, w) <==> OfAccount(c, a, hour, m, w);
      hide OfAccount;
      if c in HourCharges(accounts[..n], hour, m, w) {
        var k :| 0 <= k < n && OfAccount(c, accounts[..n][k], hour, m, w);
        assert OfAccount(c, accounts[k], hour, m, w);
      }
      if OfSomeAccount(c, accounts, hour, m, w) {
        var k :| 0 <= k < |accounts| && OfAccount(c, accounts[k], hour, m, w);
        assert k < n ==> OfAccount(c, accounts[..n][k], hour, m, w);
      }
    }
  }

  lemma {:induction false} PendingChargesAre(accounts: seq<Account>, from: int, n: nat, m: Mids, w: Writes, c: Charge)
    ensures c in PendingCharges(accounts, from, n, m, w)
       <==> from < c.hour <= from + n && OfSomeAccount(c, accounts, c.hour, m, w)
  {
    hide OfSomeAccount, HourCharges;
    if n > 0 {
      PendingChargesAre(accounts, from, n - 1, m, w, c);
      HourChargesAre(accounts, from + n, m, w, c);
    }
  }

  // --------------------------------------------------------- which tick decides

  /**
   A tick leaves the last hour alone and charges nothing, or moves it to the current
   hour, charging and marking as charged only the last 24 hours.
   */
  lemma TickMovesToNowOrNowhere(s: State, t: Tick)
    ensures var o := OutcomeOf(s.last, t);
      || (o.last == s.last && o.entries == [] && o.charges == [])
      || (o.last == t.hour && t.hour.Some? && (s.last.Some? ==> s.last.value < t.hour.value)
          && (forall c | c in o.charges :: t.hour.value - SFD_MAX_CATCH_UP_HOURS < c.hour <= t.hour.value)
          && forall i | 0 <= i < |o.entries| ::
               && o.entries[i].hour <= t.hour.value
               && (o.entries[i].fate.Charged? ==> t.hour.value - SFD_MAX_CATCH_UP_HOURS < o.entries[i].hour)
               && (o.entries[i].fate.Dropped? ==> o.entries[i].hour <= t.hour.value - SFD_MAX_CATCH_UP_HOURS))
  {
    hide PendingCharges, HasTargetAccount, FreshMids, OfSomeAccount;
    var o := OutcomeOf(s.last, t);
    if o.charges != [] {
      var current := t.hour.value;
      var from := Oldest(s.last.value, current);
      forall c | c in o.charges ensures from < c.hour <= current {
        PendingChargesAre(t.accounts.value, from, current - from, FreshMids(t).value, t.write, c);
      }
    }
  }

  /** Tick `n` resolves hour `h`: the hour is after the last one before the tick and not after the last one behind it. */
  predicate Resolves(ticks: seq<Tick>, n: nat, h: int) {
    && n < |ticks|
    && var last := StateOf(ticks[..n]).last;
    var next := OutcomeOf(last, ticks[n]).last;
    last.Some? && next.Some? && last.value < h <= next.value
  }

  /** What a tick that resolves an hour makes of it. */
  function FateAt(t: Tick, h: int): Fate
    requires t.hour.Some?
  {
    if NothingToCharge(t) then WithoutTarget
    else if h <= t.hour.value - SFD_MAX_CATCH_UP_HOURS then Dropped
    else Charged
  }

  lemma ResolvingTick(ticks: seq<Tick>, n: nat, h: int)
    requires Resolves(ticks, n, h)
    ensures n < |ticks| && ticks[n].hour.Some? && ticks[n].accounts.Some? && h <= ticks[n].hour.value
    ensures !NothingToCharge(ticks[n]) ==> FreshMids(ticks[n]).Some?
  {
    hide PendingCharges, StateOf, HasTargetAccount;
  }

  lemma {:induction false} LastNeverFalls(ticks: seq<Tick>, n: nat)
    requires n <= |ticks| && StateOf(ticks[..n]).last.Some?
    ensures StateOf(ticks).last.Some? && StateOf(ticks[..n]).last.value <= StateOf(ticks).last.value
  {
    hide OutcomeOf;
    if n == |ticks| {
      assert ticks[..n] == ticks;
    } else {
      var m := |ticks| - 1;
      assert ticks[..m][..n] == ticks[..n];
      LastNeverFalls(ticks[..m], n);
      TickMovesToNowOrNowhere(StateOf(ticks[..m]), ticks[m]);
    }
  }

  lemma ResolvedBefore(ticks: seq<Tick>, m: nat, n: nat, h: int)
    requires Resolves(ticks, m, h) && m < n <= |ticks|
    ensures StateOf(ticks[..n]).last.Some? && h <= StateOf(ticks[..n]).last.value
  {
    hide OutcomeOf;
    assert ticks[..n][..m + 1] == ticks[..m + 1];
    assert ticks[..m + 1][..m] == ticks[..m] && ticks[..m + 1][m] == ticks[m];
    LastNeverFalls(ticks[..n], m + 1);
  }

  /** An hour is resolved once. */
  lemma ResolvedOnce(ticks: seq<Tick>, m: nat, n: nat, h: int)
    ensures Resolves(ticks, m, h) && Resolves(ticks, n, h) ==> m == n
  {
    hide OutcomeOf;
    if Resolves(ticks, m, h) && Resolves(ticks, n, h) {
      if m < n {
        ResolvedBefore(ticks, m, n, h);
      } else if n < m {
        ResolvedBefore(ticks, n, m, h);
      }
    }
  }

  lemma EntriesOfTick(last: Option<int>, t: Tick, i: nat)
    requires i < |OutcomeOf(last, t).entries|
    ensures var o := OutcomeOf(last, t);
      && t.hour.Some? && last.Some? && o.last.Some?
      && last.value < o.entries[i].hour <= o.last.value
      && o.entries[i].fate == FateAt(t, o.entries[i].hour)
  {
    hide PendingCharges, HasTargetAccount, FreshMids;
  }

  /** The fate of an hour in the ledger is the one that the tick which resolves it gives it. */
  lemma {:induction false} FateIsThatOfTheResolvingTick(ticks: seq<Tick>, i: nat) returns (n: nat)
    requires i < |StateOf(ticks).ledger|
    ensures var e := StateOf(ticks).ledger[i];
      Resolves(ticks, n, e.hour) && ticks[n].hour.Some? && e.fate == FateAt(ticks[n], e.hour)
  {
    hide OutcomeOf, FateAt;
    var last := |ticks| - 1;
    var before := StateOf(ticks[..last]);
    if i < |before.ledger| {
      n := FateIsThatOfTheResolvingTick(ticks[..last], i);
      assert ticks[..last][..n] == ticks[..n];
    } else {
      n := last;
      EntriesOfTick(before.last, ticks[last], i - |before.ledger|);
    }
  }

  /** An hour is dropped only by a tick that finds it 24 hours old or older. */
  lemma DroppedOnlyWhenLate(ticks: seq<Tick>, i: nat) returns (n: nat)
    requires i < |StateOf(ticks).ledger| && StateOf(ticks).ledger[i].fate.Dropped?
    ensures Resolves(ticks, n, StateOf(ticks).ledger[i].hour) && ticks[n].hour.Some?
    ensures StateOf(ticks[..n]).last.value < StateOf(ticks).ledger[i].hour <= ticks[n].hour.value - SFD_MAX_CATCH_UP_HOURS
  {
    hide StateOf, OutcomeOf;
    n := FateIsThatOfTheResolvingTick(ticks, i);
  }

  /**
   The tick resolves the charge's hour, has targets, finds the hour among the 24 up
   to the current one, reads the trade as open and due, and can write the fee.
   */
  ghost predicate MadeAt(ticks: seq<Tick>, n: nat, c: Charge) {
    && Resolves(ticks, n, c.hour) && ticks[n].hour.Some? && FateAt(ticks[n], c.hour).Charged?
    && ticks[n].accounts.Some? && FreshMids(ticks[n]).Some?
    && OfSomeAccount(c, ticks[n].accounts.value, c.hour, FreshMids(ticks[n]).value, ticks[n].write)
  }

  /** The charges of one tick. */
  lemma ChargesOfTick(ticks: seq<Tick>, c: Charge)
    requires ticks != []
    ensures var n := |ticks| - 1;
      c in OutcomeOf(StateOf(ticks[..n]).last, ticks[n]).charges <==> MadeAt(ticks, n, c)
  {
    hide PendingCharges, StateOf, HasTargetAccount, FreshMids, OfSomeAccount;
    var n := |ticks| - 1;
    var last, t := StateOf(ticks[..n]).last, ticks[n];
    if last.Some? && t.hour.Some? && t.accounts.Some? && FreshMids(t).Some? {
      var from := Oldest(last.value, t.hour.value);
      if from <= t.hour.value {
        PendingChargesAre(t.accounts.value, from, t.hour.value - from, FreshMids(t).value, t.write, c);
      }
    }
  }

  /**
   Over any run a trade is charged for an hour exactly when the tick that resolves
   the hour has targets, finds it among the 24 hours up to the current one, still
   reads the trade as open and due, and can write the fee.
   */
  lemma {:induction false} ChargedExactlyWhen(ticks: seq<Tick>, c: Charge)
    ensures c in StateOf(ticks).charges <==> exists n :: MadeAt(ticks, n, c)
  {
    hide OutcomeOf, FateAt, OfSomeAccount, FreshMids;
    if ticks != [] {
      var last := |ticks| - 1;
      var front := ticks[..last];
      ChargedExactlyWhen(front, c);
      ChargesOfTick(ticks, c);
      if n: nat :| MadeAt(front, n, c) {
        assert front[..n] == ticks[..n];
        assert MadeAt(ticks, n, c);
      }
      if n: nat :| MadeAt(ticks, n, c) && n < last {
        assert front[..n] == ticks[..n];
        assert MadeAt(front, n, c);
      }
    }
  }

  /** An hour that the ledger calls charged has exactly the charges that its tick could make, none left out. */
  lemma ChargedHourHasItsCharges(ticks: seq<Tick>, i: nat) returns (n: nat)
    requires i < |StateOf(ticks).ledger| && StateOf(ticks).ledger[i].fate.Charged?
    ensures Resolves(ticks, n, StateOf(ticks).ledger[i].hour) && ticks[n].accounts.Some? && FreshMids(ticks[n]).Some?
    ensures forall c: Charge | c.hour == StateOf(ticks).ledger[i].hour ::
      (c in StateOf(ticks).charges
       <==> OfSomeAccount(c, ticks[n].accounts.value, c.hour, FreshMids(ticks[n]).value, ticks[n].write))
  {
    hide StateOf, OutcomeOf, OfSomeAccount, FreshMids, HasTargetAccount, Resolves;
    n := FateIsThatOfTheResolvingTick(ticks, i);
    var h := StateOf(ticks).ledger[i].hour;
    ResolvingTick(ticks, n, h);
    forall c: Charge | c.hour == h
      ensures c in StateOf(ticks).charges
        <==> OfSomeAccount(c, ticks[n].accounts.value, h, FreshMids(ticks[n]).value, ticks[n].write)
    {
      ChargedExactlyWhen(ticks, c);
      assert c.hour == h;
      if m: nat :| MadeAt(ticks, m, c) {
        ResolvedOnce(ticks, m, n, h);
      }
      if OfSomeAccount(c, ticks[n].accounts.value, h, FreshMids(ticks[n]).value, ticks[n].write) {
        assert MadeAt(ticks, n, c);
      }
    }
  }

  // -------------------------------------------------- hours that a wait can lose

  const OPEN_TRADE := OpenTrade(7, "FX_BTC_JPY", Long, 24000.0, 1.0, 0)

  /** A paper account that holds the trade while `open`. */
  function Holder(open: bool): Account {
    Account(1, "paper", true, hour => Some(if open then [OPEN_TRADE] else []))
  }

  function TickAt(hour: int, open: bool, fxAgeSecs: nat): Tick {
    Tick(Some(hour), Some([Holder(open)]), Some(if open then 1 else 0), Feed(Some(fxAgeSecs), Some((120.0, 120.0))),
         Feed(Some(0), Some((100.0, 100.0))), (id, h) => Applied)
  }

  lemma HolderIsTarget(open: bool)
    ensures HasTargetAccount([Holder(open)])
  {
    assert [Holder(open)][0].IsTarget();
  }

  /**
   Waiting can lose an hour. A trade is open and due for hour 1 when a tick has to
   wait for a fresh price; it closes before the next tick, which finds nothing open
   and moves on, so the hour is never charged although it was one hour old.
   */
  lemma AWaitingHourCanBeLost()
    ensures var ticks := [TickAt(0, true, 0), TickAt(1, true, 301), TickAt(1, false, 0)];
      && IsDue(OPEN_TRADE, 1, Mids(120.0, 100.0)) && MustWait(ticks[1])
      && StateOf(ticks).ledger == [Entry(1, WithoutTarget)] && StateOf(ticks).charges == []
  {
    var a, b, c := TickAt(0, true, 0), TickAt(1, true, 301), TickAt(1, false, 0);
    HolderIsTarget(true);
    HolderIsTarget(false);
    TradeIsDue();
    assert [a, b, c][..2] == [a, b] && [a, b][..1] == [a] && [a][..0] == [];
    hide HasTargetAccount, PendingCharges, FeeOf, HourlySfd;
    assert StateOf([a]) == State(Some(0), Some(0), [], []);
    assert OutcomeOf(Some(0), b) == Outcome(Some(0), [], []);
    assert StateOf([a, b]) == StateOf([a]);
    assert OutcomeOf(Some(0), c) == Outcome(Some(1), Entries(0, 1, WithoutTarget), []);
    assert Entries(0, 1, WithoutTarget) == [Entry(1, WithoutTarget)];
  }

  lemma TradeIsDue()
    ensures IsDue(OPEN_TRADE, 1, Mids(120.0, 100.0))
  {
    assert (120.0 - 100.0) / 100.0 == 0.2;
    assert HourlySfd(Mids(120.0, 100.0), 24000.0, Long) == 30.0;
  }

  // --------------------------------------------------------- no charge is doubled

  function ReadFor(a: Account, hour: int): seq<OpenTrade> {
    if a.openTrades(hour).Some? then a.openTrades(hour).value else []
  }

  predicate DistinctIds(trades: seq<OpenTrade>) {
    forall p, q | 0 <= p < q < |trades| :: trades[p].id != trades[q].id
  }

  predicate Disjoint(a: seq<OpenTrade>, b: seq<OpenTrade>) {
    forall p, q | 0 <= p < |a| && 0 <= q < |b| :: a[p].id != b[q].id
  }

  /** Trade ids are unique over all the accounts of a tick, as they are read for one hour. */
  predicate UniqueAt(accounts: seq<Account>, hour: int) {
    && (forall k | 0 <= k < |accounts| :: DistinctIds(ReadFor(accounts[k], hour)))
    && (forall j, k | 0 <= j < k < |accounts| :: Disjoint(ReadFor(accounts[j], hour), ReadFor(accounts[k], hour)))
  }

  ghost predicate UniqueTrades(accounts: seq<Account>) {
    forall hour: int :: UniqueAt(accounts, hour)
  }

  /** No trade is charged twice for the same hour, and hours come in order. */
  ghost predicate OncePerHour(charges: seq<Charge>) {
    forall i, j | 0 <= i < j < |charges| ::
      charges[i].hour < charges[j].hour || (charges[i].hour == charges[j].hour && charges[i].tradeId != charges[j].tradeId)
  }

  lemma {:induction false} TradesOnce(accountId: int, trades: seq<OpenTrade>, hour: int, m: Mids, w: Writes)
    requires DistinctIds(trades)
    ensures OncePerHour(TradesCharges(accountId, trades, hour, m, w))
  {
    hide IsDue, FeeOf;
    if trades != [] {
      var n := |trades| - 1;
      TradesOnce(accountId, trades[..n], hour, m, w);
      var s := TradesCharges(accountId, trades[..n], hour, m, w);
      forall i | 0 <= i < |s| ensures s[i].hour == hour && s[i].tradeId != trades[n].id {
        TradesChargesAre(accountId, trades[..n], hour, m, w, s[i]);
      }
    }
  }

  lemma DifferentIds(a: seq<OpenTrade>, b: seq<OpenTrade>, p: nat, q: nat)
    requires Disjoint(a, b) && p < |a| && q < |b|
    ensures a[p].id != b[q].id
  {
  }

  lemma IdOfCharge(c: Charge, a: Account, hour: int, m: Mids, w: Writes)
    ensures OfAccount(c, a, hour, m, w) ==>
      c.hour == hour && exists p :: 0 <= p < |ReadFor(a, hour)| && c.tradeId == ReadFor(a, hour)[p].id
  {
    hide IsDue, FeeOf;
    if OfAccount(c, a, hour, m, w) {
      var p :| 0 <= p < |a.openTrades(hour).value| && OfTrade(c, a.id, a.openTrades(hour).value[p], hour, m, w);
      assert ReadFor(a, hour)[p].id == c.tradeId;
    }
  }

  lemma {:induction false} HourOnce(accounts: seq<Account>, hour: int, m: Mids, w: Writes)
    requires UniqueAt(accounts, hour)
    ensures OncePerHour(HourCharges(accounts, hour, m, w))
    ensures forall i | 0 <= i < |HourCharges(accounts, hour, m, w)| :: HourCharges(accounts, hour, m, w)[i].hour == hour
  {
    hide DistinctIds, Disjoint, ReadFor, OfAccount, TradesCharges;
    if accounts != [] {
      var n := |accounts| - 1;
      var a := accounts[n];
      HourOnce(accounts[..n], hour, m, w);
      var s, t := HourCharges(accounts[..n], hour, m, w), AccountCharges(a, hour, m, w);
      AccountOnce(a, hour, m, w);
      forall i, j | 0 <= i < |s| && 0 <= j < |t| ensures s[i].tradeId != t[j].tradeId && t[j].hour == hour {
        HourChargesAre(accounts[..n], hour, m, w, s[i]);
        var k: nat :| k < n && OfAccount(s[i], accounts[..n][k], hour, m, w);
        IdOfCharge(s[i], accounts[k], hour, m, w);
        IdOfCharge(t[j], a, hour, m, w);
        var p :| 0 <= p < |ReadFor(accounts[k], hour)| && s[i].tradeId == ReadFor(accounts[k], hour)[p].id;
        var q :| 0 <= q < |ReadFor(a, hour)| && t[j].tradeId == ReadFor(a, hour)[q].id;
        DifferentIds(ReadFor(accounts[k], hour), ReadFor(a, hour), p, q);
      }
    }
  }

  lemma AccountOnce(a: Account, hour: int, m: Mids, w: Writes)
    requires DistinctIds(ReadFor(a, hour))
    ensures var t := AccountCharges(a, hour, m, w);
      OncePerHour(t) && forall j | 0 <= j < |t| :: OfAccount(t[j], a, hour, m, w) && t[j].hour == hour
  {
    hide TradesCharges, IsDue, FeeOf;
    if a.IsTarget() && a.openTrades(hour).Some? {
      TradesOnce(a.id, a.openTrades(hour).value, hour, m, w);
      var t := AccountCharges(a, hour, m, w);
      forall j | 0 <= j < |t| ensures OfAccount(t[j], a, hour, m, w) && t[j].hour == hour {
        TradesChargesAre(a.id, a.openTrades(hour).value, hour, m, w, t[j]);
      }
    }
  }

  lemma {:induction false} PendingOnce(accounts: seq<Account>, from: int, n: nat, m: Mids, w: Writes)
    requires UniqueTrades(accounts)
    ensures var s := PendingCharges(accounts, from, n, m, w);
      OncePerHour(s) && forall i | 0 <= i < |s| :: from < s[i].hour <= from + n
  {
    hide UniqueAt, HourCharges;
    if n > 0 {
      PendingOnce(accounts, from, n - 1, m, w);
      HourOnce(accounts, from + n, m, w);
    }
  }

  ghost predicate UniqueInTicks(ticks: seq<Tick>) {
    forall n | 0 <= n < |ticks| && ticks[n].accounts.Some? :: UniqueTrades(ticks[n].accounts.value)
  }

  predicate InLedger(s: State, c: Charge) {
    s.last.Some? && c.hour <= s.last.value && Entry(c.hour, Charged) in s.ledger
  }

  /**
   Over any run no trade is charged twice for an hour, hours are charged in order
   and none later than the last one, and each charge is for an hour that the
   ledger says was charged.
   */
  lemma {:induction false} NoTradeIsChargedTwice(ticks: seq<Tick>)
    requires UniqueInTicks(ticks)
    ensures var s := StateOf(ticks);
      && OncePerHour(s.charges)
      && forall i | 0 <= i < |s.charges| :: InLedger(s, s.charges[i])
  {
    hide UniqueTrades, OutcomeOf;
    if ticks != [] {
      var n := |ticks| - 1;
      var s, t := StateOf(ticks[..n]), ticks[n];
      NoTradeIsChargedTwice(ticks[..n]);
      TickOnce(s.last, t);
      var r := After(s, t);
      assert StateOf(ticks) == r;
      forall i | 0 <= i < |r.charges|
        ensures InLedger(r, r.charges[i])
      {
        if i < |s.charges| {
          assert r.charges[i] == s.charges[i];
        } else {
          assert r.charges[i] == OutcomeOf(s.last, t).charges[i - |s.charges|];
        }
      }
    }
  }

  lemma TickOnce(last: Option<int>, t: Tick)
    requires t.accounts.Some? ==> UniqueTrades(t.accounts.value)
    ensures var o := OutcomeOf(last, t);
      && OncePerHour(o.charges)
      && (last.Some? ==> o.last.Some? && last.value <= o.last.value)
      && forall i | 0 <= i < |o.charges| ::
           && last.Some? && last.value < o.charges[i].hour <= o.last.value
           && Entry(o.charges[i].hour, Charged) in o.entries
  {
    hide UniqueTrades, PendingCharges, HasTargetAccount, FreshMids;
    var o := OutcomeOf(last, t);
    if o.charges != [] {
      var lh, current := last.value, t.hour.value;
      var from := Oldest(lh, current);
      PendingOnce(t.accounts.value, from, current - from, FreshMids(t).value, t.write);
      forall i | 0 <= i < |o.charges| ensures Entry(o.charges[i].hour, Charged) in o.entries {
        var entries := Entries(from, current, Charged);
        assert entries[o.charges[i].hour - from - 1] in entries;
      }
    }
  }

  /** Only whole ticks wait: an account whose trades cannot be read loses the hours of that tick for good. */
  lemma UnreadableAccountLosesItsHours(t: Tick, a: Account, lh: int)
    requires t.hour == Some(lh + 1) && t.accounts == Some([a]) && a.IsTarget() && a.openTrades(lh + 1).None?
    requires t.openTargets.Some? && t.openTargets.value != 0 && FreshMids(t).Some?
    ensures OutcomeOf(Some(lh), t) == Outcome(Some(lh + 1), [Entry(lh + 1, Charged)], [])
  {
    var m := FreshMids(t).value;
    assert HasTargetAccount([a]) by {
      assert [a][0].IsTarget();
    }
    assert [a][..0] == [];
    assert HourCharges([a], lh + 1, m, t.write) == [];
    assert PendingCharges([a], lh, 0, m, t.write) == [];
    assert PendingCharges([a], lh, 1, m, t.write) == [];
    assert Entries(lh, lh, Dropped) + Entries(lh, lh + 1, Charged) == [Entry(lh + 1, Charged)];
  }
}

/** The reconciliation at startup, `crates/app/src/startup_reconcile.rs`. */
module Reconcile {
  import opened Wrappers
  import opened Sizing
  import opened Sorted

  // The store holds the account's trades and its balance; what the exchange, the
  // price store and the database writes answer is an input.

  datatype Status = Open | Closing | Closed

  datatype ExitReason = SlHit | Reconciled

  datatype Trade = Trade(
    pair: string, direction: Direction, entryPrice: real, quantity: real, leverage: real, fees: real,
    status: Status, exitPrice: Option<real>, pnl: Option<real>, exitReason: Option<ExitReason>)
  {
    function Key(): GroupKey { GroupKey(pair, direction) }

    function Margin(): real
      requires leverage != 0.0
    {
      OpenPosition(direction, entryPrice, entryPrice, quantity, leverage).RequiredMargin()
    }
  }

  datatype GroupKey = GroupKey(pair: string, direction: Direction)

  predicate Active(t: Trade) { !t.status.Closed? }

  // ------------------------------------------------------- positions of the exchange

  datatype Position = Position(side: string, size: real)

  predicate IsSpace(c: char) { c == ' ' || '\t' <= c <= '\r' }

  function Trim(s: string): string {
    if s != [] && IsSpace(s[0]) then Trim(s[1..])
    else if s != [] && IsSpace(s[|s| - 1]) then Trim(s[..|s| - 1])
    else s
  }

  function Upper(s: string): string {
    seq(|s|, i requires 0 <= i < |s| => if 'a' <= s[i] <= 'z' then (s[i] as int - 32) as char else s[i])
  }

  function MatchesDirection(side: string, direction: Direction): Option<bool> {
    var name := Upper(Trim(side));
    if name == "BUY" then Some(direction.Long?)
    else if name == "SELL" then Some(direction.Short?)
    else None
  }

  /** The size of the positions on the side of a direction. */
  function MatchingSize(ps: seq<Position>, direction: Direction): real {
    if ps == [] then 0.0
    else
      var p := ps[|ps| - 1];
      MatchingSize(ps[..|ps| - 1], direction)
      + if p.size > 0.0 && MatchesDirection(p.side, direction) == Some(true) then p.size else 0.0
  }

  /** Whether a position is on the other side, or on an unknown one. */
  predicate Conflicts(ps: seq<Position>, direction: Direction) {
    exists i | 0 <= i < |ps| :: ps[i].size > 0.0 && MatchesDirection(ps[i].side, direction) != Some(true)
  }

  method SumMatchingExchangeSize(ps: seq<Position>, direction: Direction) returns (size: real, conflicting: bool)
    ensures size == MatchingSize(ps, direction) && conflicting == Conflicts(ps, direction)
  {
    hide MatchesDirection;
    size, conflicting := 0.0, false;
    for i := 0 to |ps|
      invariant size == MatchingSize(ps[..i], direction)
      invariant conflicting == Conflicts(ps[..i], direction)
    {
      assert ps[..i + 1][..i] == ps[..i] && ps[..i + 1][i] == ps[i];
      assert Conflicts(ps[..i], direction) ==> Conflicts(ps[..i + 1], direction);
      if ps[i].size <= 0.0 {
        continue;
      }
      match MatchesDirection(ps[i].side, direction) {
        case Some(true) => size := size + ps[i].size;
        case Some(false) => conflicting := true;
        case None => conflicting := true;
      }
    }
    assert ps[..|ps|] == ps;
  }

  // ------------------------------------------------------------------- one trade

  /** How the database writes for a trade go. */
  datatype Write = WriteOk | FailsAtOnce | FailsAfterFees | FailsAfterClose

  /** `stopFill` is the price and the commission of an executed stop order. */
  datatype World = World(
    positions: string -> Option<seq<Position>>, stopFill: nat -> Option<(real, real)>,
    bidAsk: string -> Option<(real, real)>, write: nat -> Write)
  {
    function PositionsOf(pair: string): seq<Position> {
      if positions(pair).Some? then positions(pair).value else []
    }

    predicate HasMatching(key: GroupKey) { MatchingSize(PositionsOf(key.pair), key.direction) > 0.0 }
  }

  function PnlOf(direction: Direction, entryPrice: real, quantity: real, exitPrice: real): real {
    Truncate((if direction.Long? then exitPrice - entryPrice else entryPrice - exitPrice) * quantity)
  }

  function PnlAt(t: Trade, exitPrice: real): real { PnlOf(t.direction, t.entryPrice, t.quantity, exitPrice) }

  function ClosedAt(t: Trade, exitPrice: real, reason: ExitReason): Trade {
    t.(status := Closed, exitPrice := Some(exitPrice), pnl := Some(PnlAt(t, exitPrice)), exitReason := Some(reason))
  }

  function BestEffortExitPrice(w: World, t: Trade): real {
    var quote := w.bidAsk(t.pair);
    if quote.Some? then (quote.value.0 + quote.value.1) / 2.0 else t.entryPrice
  }

  /** Only the stop of an open trade is asked for. */
  function ExecutedStop(w: World, i: nat, t: Trade): Option<(real, real)> {
    if t.status.Open? then w.stopFill(i) else None
  }

  function WithFees(w: World, i: nat, t: Trade): Trade {
    var stop := ExecutedStop(w, i, t);
    if stop.Some? then t.(fees := t.fees + stop.value.1) else t
  }

  /** What trade `i` becomes: open if the exchange still has its position, else closed. */
  function Final(w: World, i: nat, t: Trade): Trade {
    if !Active(t) then t
    else if w.HasMatching(t.Key()) then t.(status := Open)
    else
      var stop := ExecutedStop(w, i, t);
      if stop.Some? then ClosedAt(WithFees(w, i, t), stop.value.0, SlHit)
      else ClosedAt(t, BestEffortExitPrice(w, t), Reconciled)
  }

  /** Whether the writes that trade `i` needs fail. */
  predicate WriteFails(w: World, i: nat, t: Trade) {
    Active(t) && !(t.status.Open? && w.HasMatching(t.Key())) && w.write(i) != WriteOk
  }

  // -------------------------------------------------------------------- the store

  predicate AllLeveraged(rows: seq<Trade>) { forall i | 0 <= i < |rows| :: rows[i].leverage != 0.0 }

  /** What a trade ties up of the account: its margin while it is active, less its result once it is closed. */
  function Tied(t: Trade): real
    requires t.leverage != 0.0
  {
    if Active(t) then t.Margin() else if t.pnl.Some? then -t.pnl.value else 0.0
  }

  function TiedUp(rows: seq<Trade>): real
    requires AllLeveraged(rows)
  {
    if rows == [] then 0.0 else TiedUp(rows[..|rows| - 1]) + Tied(rows[|rows| - 1])
  }

  lemma {:induction false} TiedUpUpdated(rows: seq<Trade>, i: nat, t: Trade)
    requires AllLeveraged(rows) && i < |rows| && t.leverage != 0.0
    ensures TiedUp(rows[i := t]) == TiedUp(rows) - Tied(rows[i]) + Tied(t)
  {
    hide Tied;
    var n := |rows| - 1;
    if i < n {
      TiedUpUpdated(rows[..n], i, t);
      assert rows[i := t][..n] == rows[..n][i := t];
    } else {
      assert rows[i := t][..n] == rows[..n];
    }
  }

  /** What trade `i` is when its writes have failed. */
  function AfterFailure(w: World, i: nat, t: Trade): Trade {
    if w.HasMatching(t.Key()) then t
    else match w.write(i)
      case FailsAtOnce => t
      case FailsAfterFees => WithFees(w, i, t)
      case _ => Final(w, i, t)
  }

  // ------------------------------------------------------------------- the groups

  predicate InRange(ids: seq<nat>, n: nat) { forall k | 0 <= k < |ids| :: ids[k] < n }

  /** The trades to reconcile, as the positions of their rows. */
  function ActiveIds(rows: seq<Trade>): (ids: seq<nat>)
    ensures forall i: nat :: i in ids <==> i < |rows| && Active(rows[i])
    ensures DuplicateFree(ids) && InRange(ids, |rows|)
  {
    if rows == [] then []
    else
      var n := |rows| - 1;
      ActiveIds(rows[..n]) + if Active(rows[n]) then [n] else []
  }

  /** The quantity of the active trades of a group. */
  function ActiveTotal(rows: seq<Trade>, key: GroupKey): real {
    if rows == [] then 0.0
    else
      var t := rows[|rows| - 1];
      ActiveTotal(rows[..|rows| - 1], key) + if Active(t) && t.Key() == key then t.quantity else 0.0
  }

  /** The same over a list of rows. */
  function TotalOf(rows: seq<Trade>, ids: seq<nat>, key: GroupKey): real
    requires InRange(ids, |rows|)
  {
    if ids == [] then 0.0
    else
      var t := rows[ids[|ids| - 1]];
      TotalOf(rows, ids[..|ids| - 1], key) + if t.Key() == key then t.quantity else 0.0
  }

  lemma {:induction false} TotalOfIds(rows: seq<Trade>, front: seq<Trade>, ids: seq<nat>, key: GroupKey)
    requires front <= rows && InRange(ids, |front|)
    ensures TotalOf(rows, ids, key) == TotalOf(front, ids, key)
  {
    if ids != [] {
      TotalOfIds(rows, front, ids[..|ids| - 1], key);
    }
  }

  lemma {:induction false} TotalOfActive(rows: seq<Trade>, key: GroupKey)
    ensures TotalOf(rows, ActiveIds(rows), key) == ActiveTotal(rows, key)
  {
    if rows != [] {
      var n := |rows| - 1;
      var ids := ActiveIds(rows[..n]);
      TotalOfActive(rows[..n], key);
      TotalOfIds(rows, rows[..n], ids, key);
      assert (ids + [n])[..|ids|] == ids && ids + [] == ids;
    }
  }

  datatype Group = Group(total: real, ids: seq<nat>)

  /** `g` collects the listed trades of its key. */
  ghost predicate Collects(rows: seq<Trade>, ids: seq<nat>, key: GroupKey, g: Group)
    requires InRange(ids, |rows|)
  {
    && g.total == TotalOf(rows, ids, key) && g.ids != [] && DuplicateFree(g.ids) && InRange(g.ids, |rows|)
    && forall i :: i in g.ids <==> i in ids && rows[i].Key() == key
  }

  ghost predicate AllCollected(rows: seq<Trade>, ids: seq<nat>, groups: map<GroupKey, Group>)
    requires InRange(ids, |rows|)
  {
    && (forall k | 0 <= k < |ids| :: rows[ids[k]].Key() in groups)
    && (forall key | key in groups :: Collects(rows, ids, key, groups[key]))
  }

  lemma CollectNext(rows: seq<Trade>, ids: seq<nat>, groups: map<GroupKey, Group>, i: nat)
    requires InRange(ids, |rows|) && i < |rows| && i !in ids && AllCollected(rows, ids, groups)
    ensures AllCollected(rows, ids + [i], WithTrade(groups, rows[i], i))
  {
    hide Collects, InRange;
    var t, more, next := rows[i], ids + [i], WithTrade(groups, rows[i], i);
    RangeOfMore(ids, i, |rows|);
    CollectOne(rows, ids, if t.Key() in groups then groups[t.Key()] else Group(0.0, []), i);
    forall key | key in next && key != t.Key() ensures Collects(rows, more, key, next[key]) {
      CollectOther(rows, ids, key, groups[key], i);
    }
    forall k | 0 <= k < |more| ensures rows[more[k]].Key() in next {
      assert k < |ids| ==> rows[ids[k]].Key() in groups;
    }
  }

  lemma RangeOfMore(ids: seq<nat>, i: nat, size: nat)
    requires InRange(ids, size) && i < size
    ensures InRange(ids + [i], size) && forall k | 0 <= k < |ids + [i]| :: (ids + [i])[k] < size
  {
  }

  /** None of the listed trades has the key. */
  predicate NoneOf(rows: seq<Trade>, ids: seq<nat>, key: GroupKey)
    requires InRange(ids, |rows|)
  {
    forall k | 0 <= k < |ids| :: rows[ids[k]].Key() != key
  }

  /** The groups with one more trade. */
  function WithTrade(groups: map<GroupKey, Group>, t: Trade, i: nat): map<GroupKey, Group> {
    var g := if t.Key() in groups then groups[t.Key()] else Group(0.0, []);
    groups[t.Key() := Group(g.total + t.quantity, g.ids + [i])]
  }

  lemma CollectOne(rows: seq<Trade>, ids: seq<nat>, g: Group, i: nat)
    requires InRange(ids, |rows|) && i < |rows| && i !in ids
    requires Collects(rows, ids, rows[i].Key(), g) || (g == Group(0.0, []) && NoneOf(rows, ids, rows[i].Key()))
    ensures Collects(rows, ids + [i], rows[i].Key(), Group(g.total + rows[i].quantity, g.ids + [i]))
  {
    var key := rows[i].Key();
    TotalOfMore(rows, ids, i, key);
    if NoneOf(rows, ids, key) {
      NothingCollected(rows, ids, key);
    }
    hide TotalOf;
    var more := g.ids + [i];
    forall j ensures j in more <==> j in ids + [i] && rows[j].Key() == key {
      assert j in more <==> j in g.ids || j == i;
      assert j in ids + [i] <==> j in ids || j == i;
    }
    hide NoneOf;
    assert i !in g.ids;
  }

  lemma TotalOfMore(rows: seq<Trade>, ids: seq<nat>, i: nat, key: GroupKey)
    requires InRange(ids, |rows|) && i < |rows|
    ensures TotalOf(rows, ids + [i], key) == TotalOf(rows, ids, key) + if rows[i].Key() == key then rows[i].quantity else 0.0
  {
    assert (ids + [i])[..|ids|] == ids;
  }

  lemma CollectOther(rows: seq<Trade>, ids: seq<nat>, key: GroupKey, g: Group, i: nat)
    requires InRange(ids, |rows|) && i < |rows| && i !in ids && rows[i].Key() != key && Collects(rows, ids, key, g)
    ensures Collects(rows, ids + [i], key, g)
  {
    TotalOfMore(rows, ids, i, key);
    hide TotalOf;
  }

  lemma {:induction false} NothingCollected(rows: seq<Trade>, ids: seq<nat>, key: GroupKey)
    requires InRange(ids, |rows|) && NoneOf(rows, ids, key)
    ensures TotalOf(rows, ids, key) == 0.0
  {
    if ids != [] {
      NothingCollected(rows, ids[..|ids| - 1], key);
    }
  }

  lemma NoIds(rows: seq<Trade>, ids: seq<nat>)
    ensures InRange(ids[..0], |rows|) && AllCollected(rows, ids[..0], map[])
  {
  }

  lemma NextId(ids: seq<nat>, n: nat, size: nat)
    requires DuplicateFree(ids) && InRange(ids, size) && n < |ids|
    ensures ids[n] < size && ids[n] !in ids[..n] && ids[..n + 1] == ids[..n] + [ids[n]]
    ensures InRange(ids[..n], size) && InRange(ids[..n + 1], size)
  {
  }

  method GroupTrades(rows: seq<Trade>, ids: seq<nat>) returns (groups: map<GroupKey, Group>)
    requires DuplicateFree(ids) && InRange(ids, |rows|)
    ensures AllCollected(rows, ids, groups)
  {
    hide AllCollected, DuplicateFree, InRange;
    groups := map[];
    NoIds(rows, ids);
    for n := 0 to |ids|
      invariant InRange(ids[..n], |rows|) && AllCollected(rows, ids[..n], groups)
    {
      NextId(ids, n, |rows|);
      var t := rows[ids[n]];
      var g := if t.Key() in groups then groups[t.Key()] else Group(0.0, []);
      CollectNext(rows, ids[..n], groups, ids[n]);
      groups := groups[t.Key() := Group(g.total + t.quantity, g.ids + [ids[n]])];
    }
    assert ids[..|ids|] == ids;
  }

  // ------------------------------------------------------------ when it can succeed

  predicate RejectAggregateMismatch(total: real, matchingSize: real, conflicting: bool) {
    conflicting || (matchingSize > 0.0 && matchingSize != total)
  }

  predicate Passes(w: World, rows: seq<Trade>, key: GroupKey) {
    var ps := w.PositionsOf(key.pair);
    !RejectAggregateMismatch(ActiveTotal(rows, key), MatchingSize(ps, key.direction), Conflicts(ps, key.direction))
  }

  predicate Fetched(w: World, rows: seq<Trade>) {
    forall i | 0 <= i < |rows| && Active(rows[i]) :: w.positions(rows[i].pair).Some?
  }

  /** The positions can be read, every group with an active trade passes, and no write fails. */
  predicate CanReconcile(w: World, rows: seq<Trade>) {
    && Fetched(w, rows)
    && (forall i | 0 <= i < |rows| && Active(rows[i]) :: Passes(w, rows, rows[i].Key()))
    && (forall i | 0 <= i < |rows| :: !WriteFails(w, i, rows[i]))
  }

  function AllFinal(w: World, rows: seq<Trade>): (r: seq<Trade>)
    ensures |r| == |rows| && forall i | 0 <= i < |r| :: r[i] == Final(w, i, rows[i])
  {
    seq(|rows|, i requires 0 <= i < |rows| => Final(w, i, rows[i]))
  }

  method FetchExchangePositions(w: World, rows: seq<Trade>, ids: seq<nat>) returns (fetched: bool)
    requires ids == ActiveIds(rows)
    ensures fetched <==> Fetched(w, rows)
  {
    for n := 0 to |ids|
      invariant forall k | 0 <= k < n :: w.positions(rows[ids[k]].pair).Some?
    {
      if w.positions(rows[ids[n]].pair).None? {
        return false;
      }
    }
    assert ids[..|ids|] == ids;
    return true;
  }

  /** While the groups in `done` are final and the others untouched. */
  ghost predicate Progress(w: World, before: seq<Trade>, done: set<GroupKey>, rows: seq<Trade>) {
    |rows| == |before| && forall i: nat | i < |rows| ::
      rows[i] == if before[i].Key() in done then Final(w, i, before[i]) else before[i]
  }

  /** The same while the first trades `ids` of the next group are final too. */
  ghost predicate PartDone(w: World, before: seq<Trade>, done: set<GroupKey>, ids: seq<nat>, rows: seq<Trade>) {
    |rows| == |before| && forall i: nat | i < |rows| ::
      rows[i] == if before[i].Key() in done || i in ids then Final(w, i, before[i]) else before[i]
  }

  /** A start that ended at trade `failed`, whose write failed; the other trades are untouched or final. */
  ghost predicate StoppedAt(w: World, before: seq<Trade>, rows: seq<Trade>, failed: Option<nat>) {
    && |rows| == |before|
    && (failed.Some? ==> failed.value < |rows| && WriteFails(w, failed.value, before[failed.value]))
    && forall i: nat | i < |rows| ::
      if failed == Some(i) then rows[i] == AfterFailure(w, i, before[i])
      else rows[i] == before[i] || rows[i] == Final(w, i, before[i])
  }

  /** Only trades of some groups differ. */
  ghost predicate OnlyIn(before: seq<Trade>, rows: seq<Trade>, keys: set<GroupKey>) {
    |rows| == |before| && forall i: nat | i < |rows| && rows[i] != before[i] :: before[i].Key() in keys
  }

  /** A trade differs only where the positions could be read and its group passed. */
  ghost predicate ChangedWherePassed(w: World, before: seq<Trade>, rows: seq<Trade>) {
    && |rows| == |before|
    && forall i: nat | i < |rows| && rows[i] != before[i] :: Fetched(w, before) && Passes(w, before, before[i].Key())
  }

  lemma NoneDone(w: World, before: seq<Trade>, done: set<GroupKey>, rows: seq<Trade>)
    requires Progress(w, before, done, rows)
    ensures |rows| == |before| && PartDone(w, before, done, [], rows)
  {
    hide Final;
  }

  lemma Untouched(w: World, before: seq<Trade>, done: set<GroupKey>, ids: seq<nat>, rows: seq<Trade>, i: nat)
    requires PartDone(w, before, done, ids, rows) && i < |rows| && before[i].Key() !in done && i !in ids
    ensures rows[i] == before[i]
  {
  }

  lemma OneMoreDone(
      w: World, before: seq<Trade>, done: set<GroupKey>, ids: seq<nat>, rows: seq<Trade>, i: nat, next: seq<Trade>)
    requires PartDone(w, before, done, ids, rows) && i < |rows| == |next| && next[i] == Final(w, i, before[i])
    requires forall k | 0 <= k < |rows| && k != i :: next[k] == rows[k]
    ensures PartDone(w, before, done, ids + [i], next)
  {
    hide Final;
  }

  lemma StoppedInGroup(
      w: World, before: seq<Trade>, done: set<GroupKey>, ids: seq<nat>, rows: seq<Trade>, i: nat, next: seq<Trade>)
    requires PartDone(w, before, done, ids, rows) && i < |rows| == |next|
    requires forall k | 0 <= k < |ids| :: ids[k] < |before| && before[ids[k]].Key() == before[i].Key()
    requires WriteFails(w, i, before[i]) && next[i] == AfterFailure(w, i, before[i])
    requires forall k | 0 <= k < |rows| && k != i :: next[k] == rows[k]
    ensures StoppedAt(w, before, next, Some(i)) && OnlyIn(before, next, done + {before[i].Key()})
  {
    hide Final, AfterFailure, WriteFails;
  }

  lemma GroupDone(w: World, before: seq<Trade>, done: set<GroupKey>, key: GroupKey, g: Group, rows: seq<Trade>)
    requires Collects(before, ActiveIds(before), key, g) && PartDone(w, before, done, g.ids, rows)
    requires InRange(g.ids, |before|) && forall k | 0 <= k < |g.ids| :: !WriteFails(w, g.ids[k], before[g.ids[k]])
    ensures Progress(w, before, done + {key}, rows)
    ensures forall i: nat | i < |before| && before[i].Key() == key :: !WriteFails(w, i, before[i])
  {
    hide Collects, ActiveIds, Final, WriteFails;
    forall i: nat | i < |before| && before[i].Key() == key
      ensures !WriteFails(w, i, before[i]) && (i in g.ids || Final(w, i, before[i]) == before[i])
    {
      ListedOrClosed(before, key, g, i);
      ClosedStays(w, i, before[i]);
    }
    ListedAreOfTheGroup(before, key, g);
  }

  lemma ListedOrClosed(rows: seq<Trade>, key: GroupKey, g: Group, i: nat)
    requires Collects(rows, ActiveIds(rows), key, g) && i < |rows| && rows[i].Key() == key
    ensures i in g.ids || !Active(rows[i])
  {
    hide TotalOf;
    assert i in g.ids <==> i in ActiveIds(rows);
  }

  lemma ListedAreOfTheGroup(rows: seq<Trade>, key: GroupKey, g: Group)
    requires Collects(rows, ActiveIds(rows), key, g)
    ensures forall i | i in g.ids :: i < |rows| && rows[i].Key() == key
  {
    hide TotalOf;
  }

  lemma ClosedStays(w: World, i: nat, t: Trade)
    ensures !Active(t) ==> Final(w, i, t) == t && !WriteFails(w, i, t)
  {
  }

  class Store {
    var rows: seq<Trade>
    var balance: real

    /** The balance, the margins of the active trades and the results of the closed ones. */
    function Capital(): real
      requires AllLeveraged(rows)
      reads this
    {
      balance + TiedUp(rows)
    }

    /** Closes trade `i` and gives its margin and its result back to the balance. */
    method CloseReconciled(w: World, i: nat, exitPrice: real, reason: ExitReason, extraFees: real) returns (ok: bool)
      requires AllLeveraged(rows) && i < |rows| && Active(rows[i])
      modifies this
      ensures ok <==> w.write(i) == WriteOk
      ensures AllLeveraged(rows) && |rows| == |old(rows)| && Capital() == old(Capital())
      ensures balance == old(balance) +
        if w.write(i) == FailsAtOnce || w.write(i) == FailsAfterFees then 0.0
        else old(rows)[i].Margin() + PnlAt(old(rows)[i], exitPrice)
      ensures var t := old(rows)[i];
        var u := if extraFees != 0.0 then t.(fees := t.fees + extraFees) else t;
        rows == old(rows)[i := match w.write(i)
          case FailsAtOnce => t
          case FailsAfterFees => u
          case _ => ClosedAt(u, exitPrice, reason)]
    {
      var t := rows[i];
      if w.write(i) == FailsAtOnce {
        return false;
      }
      var u := if extraFees != 0.0 then t.(fees := t.fees + extraFees) else t;
      TiedUpUpdated(rows, i, u);
      rows := rows[i := u];
      if w.write(i) == FailsAfterFees {
        return false;
      }
      var closed := ClosedAt(u, exitPrice, reason);
      TiedUpUpdated(rows, i, closed);
      rows := rows[i := closed];
      balance := balance + t.Margin() + closed.pnl.value;
      return w.write(i) == WriteOk;
    }

    method ReconcileTrade(w: World, i: nat, exchangeHasMatching: bool) returns (ok: bool)
      requires AllLeveraged(rows) && i < |rows| && Active(rows[i]) && exchangeHasMatching == w.HasMatching(rows[i].Key())
      modifies this
      ensures ok <==> !WriteFails(w, i, old(rows)[i])
      ensures AllLeveraged(rows) && |rows| == |old(rows)| && Capital() == old(Capital())
      ensures forall k | 0 <= k < |rows| && k != i :: rows[k] == old(rows)[k]
      ensures rows[i] == if ok then Final(w, i, old(rows)[i]) else AfterFailure(w, i, old(rows)[i])
    {
      hide PnlAt, MatchingSize, BestEffortExitPrice, Truncate;
      var t := rows[i];
      match (t.status, exchangeHasMatching) {
        case (Open, true) =>
          return true;
        case (Open, false) =>
          var stop := w.stopFill(i);
          if stop.Some? {
            ok := CloseReconciled(w, i, stop.value.0, SlHit, stop.value.1);
          } else {
            ok := CloseReconciled(w, i, BestEffortExitPrice(w, t), Reconciled, 0.0);
          }
        case (Closing, true) =>
          if w.write(i) != WriteOk {
            return false;
          }
          TiedUpUpdated(rows, i, t.(status := Open));
          rows := rows[i := t.(status := Open)];
          return true;
        case (Closing, false) =>
          ok := CloseReconciled(w, i, BestEffortExitPrice(w, t), Reconciled, 0.0);
      }
    }

    method ReconcileGroup(w: World, key: GroupKey, g: Group, ghost before: seq<Trade>, ghost done: set<GroupKey>)
      returns (ok: bool, ghost failed: Option<nat>)
      requires AllLeveraged(rows) && Progress(w, before, done, rows) && key !in done
      requires Collects(before, ActiveIds(before), key, g)
      modifies this
      ensures AllLeveraged(rows) && Capital() == old(Capital())
      ensures ok ==> Progress(w, before, done + {key}, rows)
      ensures ok ==> forall i: nat | i < |before| && before[i].Key() == key :: !WriteFails(w, i, before[i])
      ensures !ok ==> failed.Some? && StoppedAt(w, before, rows, failed) && OnlyIn(before, rows, done + {key})
    {
      hide MatchingSize, ExecutedStop, ClosedAt, WithFees, TotalOf, Final, AfterFailure, WriteFails;
      hide PartDone, StoppedAt, OnlyIn, Progress;
      var exchangeHasMatching := w.HasMatching(key);
      NoneDone(w, before, done, rows);
      assert g.ids[..0] == [];
      for n := 0 to |g.ids|
        invariant AllLeveraged(rows) && Capital() == old(Capital())
        invariant |rows| == |before| && PartDone(w, before, done, g.ids[..n], rows)
        invariant forall k | 0 <= k < n :: !WriteFails(w, g.ids[k], before[g.ids[k]])
      {
        var i := g.ids[n];
        assert i in g.ids && g.ids[..n + 1] == g.ids[..n] + [i] && i !in g.ids[..n];
        ghost var now := rows;
        Untouched(w, before, done, g.ids[..n], rows, i);
        var fine := ReconcileTrade(w, i, exchangeHasMatching);
        if !fine {
          StoppedInGroup(w, before, done, g.ids[..n], now, i, rows);
          return false, Some(i);
        }
        OneMoreDone(w, before, done, g.ids[..n], now, i, rows);
      }
      assert g.ids[..|g.ids|] == g.ids;
      GroupDone(w, before, done, key, g, rows);
      return true, None;
    }

    /**
     Reconciles the account, group by group in any order. It succeeds exactly when
     the positions can be read, every group passes and the writes succeed; then
     every trade is final. Otherwise it stops at a group that does not pass or at the
     trade whose write fails, and every other trade is untouched or final. The
     capital of the account is kept in any case.
     */
    method ReconcileAccount(w: World) returns (ok: bool, ghost failed: Option<nat>)
      requires AllLeveraged(rows)
      modifies this
      ensures ok <==> CanReconcile(w, old(rows))
      ensures ok ==> rows == AllFinal(w, old(rows)) && failed.None?
      ensures StoppedAt(w, old(rows), rows, failed) && ChangedWherePassed(w, old(rows), rows)
      ensures AllLeveraged(rows) && Capital() == old(Capital())
    {
      hide MatchingSize, Conflicts, WriteFails, Final, Passes, StoppedAt, OnlyIn, ChangedWherePassed;
      ghost var before := rows;
      var ids := ActiveIds(rows);
      StartReached(w, rows);
      if ids == [] {
        NothingToDo(w, rows);
        return true, None;
      }
      var fetched := FetchExchangePositions(w, rows, ids);
      if !fetched {
        return false, None;
      }
      var groups := GroupTrades(rows, ids);
      var keys := groups.Keys;
      ghost var done: set<GroupKey> := {};
      while keys != {}
        invariant keys + done == groups.Keys && keys !! done
        invariant AllLeveraged(rows) && Capital() == old(Capital()) && Progress(w, before, done, rows)
        invariant forall key | key in done :: Passes(w, before, key)
        invariant forall i: nat | i < |before| && before[i].Key() in done :: !WriteFails(w, i, before[i])
        decreases keys
      {
        var key :| key in keys;
        var size, conflicting := SumMatchingExchangeSize(w.PositionsOf(key.pair), key.direction);
        GroupPasses(w, before, key, groups[key]);
        ProgressReached(w, before, done, rows);
        if RejectAggregateMismatch(groups[key].total, size, conflicting) {
          return false, None;
        }
        var fine, at := ReconcileGroup(w, key, groups[key], before, done);
        if !fine {
          StoppedInPassed(w, before, done + {key}, rows, at);
          return false, at;
        }
        keys, done := keys - {key}, done + {key};
      }
      Finished(w, before, done, rows);
      return true, None;
    }
  }

  lemma NothingToDo(w: World, rows: seq<Trade>)
    requires ActiveIds(rows) == []
    ensures CanReconcile(w, rows) && AllFinal(w, rows) == rows
  {
    forall i: nat | i < |rows| ensures !Active(rows[i]) {
      assert i !in ActiveIds(rows);
    }
  }

  lemma StartReached(w: World, rows: seq<Trade>)
    ensures StoppedAt(w, rows, rows, None) && ChangedWherePassed(w, rows, rows)
  {
    hide Final, AfterFailure;
  }

  lemma ProgressReached(w: World, before: seq<Trade>, done: set<GroupKey>, rows: seq<Trade>)
    requires Progress(w, before, done, rows) && Fetched(w, before)
    requires forall key | key in done :: Passes(w, before, key)
    ensures StoppedAt(w, before, rows, None) && ChangedWherePassed(w, before, rows)
  {
    hide Final, AfterFailure, Passes, Fetched;
  }

  lemma StoppedInPassed(w: World, before: seq<Trade>, keys: set<GroupKey>, rows: seq<Trade>, failed: Option<nat>)
    requires StoppedAt(w, before, rows, failed) && failed.Some? && OnlyIn(before, rows, keys) && Fetched(w, before)
    requires forall key | key in keys :: Passes(w, before, key)
    ensures !CanReconcile(w, before) && ChangedWherePassed(w, before, rows)
  {
    hide Final, AfterFailure, Passes, Fetched, WriteFails;
  }

  lemma GroupPasses(w: World, rows: seq<Trade>, key: GroupKey, g: Group)
    requires Collects(rows, ActiveIds(rows), key, g)
    ensures var ps := w.PositionsOf(key.pair);
      Passes(w, rows, key)
      <==> !RejectAggregateMismatch(g.total, MatchingSize(ps, key.direction), Conflicts(ps, key.direction))
    ensures exists i: nat :: i < |rows| && Active(rows[i]) && rows[i].Key() == key
  {
    TotalOfActive(rows, key);
    assert g.ids[0] in g.ids;
  }

  lemma Finished(w: World, before: seq<Trade>, done: set<GroupKey>, rows: seq<Trade>)
    requires Progress(w, before, done, rows) && Fetched(w, before)
    requires forall i: nat | i < |before| && Active(before[i]) :: before[i].Key() in done
    requires forall key | key in done :: Passes(w, before, key)
    requires forall i: nat | i < |before| && before[i].Key() in done :: !WriteFails(w, i, before[i])
    ensures CanReconcile(w, before) && rows == AllFinal(w, before)
    ensures StoppedAt(w, before, rows, None) && ChangedWherePassed(w, before, rows)
  {
    hide Passes;
    ProgressReached(w, before, done, rows);
  }

  // ------------------------------------------------------- what success means

  /** The quantity that is open in a group. */
  function OpenTotal(rows: seq<Trade>, key: GroupKey): real {
    if rows == [] then 0.0
    else
      var t := rows[|rows| - 1];
      OpenTotal(rows[..|rows| - 1], key) + if t.status.Open? && t.Key() == key then t.quantity else 0.0
  }

  lemma {:induction false} OpenTotalOfFinal(w: World, rows: seq<Trade>, key: GroupKey)
    ensures OpenTotal(AllFinal(w, rows), key) == if w.HasMatching(key) then ActiveTotal(rows, key) else 0.0
  {
    hide MatchingSize, BestEffortExitPrice, ExecutedStop;
    if rows != [] {
      var n := |rows| - 1;
      OpenTotalOfFinal(w, rows[..n], key);
      assert AllFinal(w, rows)[..n] == AllFinal(w, rows[..n]);
    }
  }

  lemma {:induction false} SizeIsNotNegative(ps: seq<Position>, direction: Direction)
    ensures MatchingSize(ps, direction) >= 0.0
  {
    if ps != [] {
      SizeIsNotNegative(ps[..|ps| - 1], direction);
    }
  }

  /** Where nothing conflicts with a direction, the other direction has no position. */
  lemma {:induction false} NoOtherSide(ps: seq<Position>, d: Direction, e: Direction)
    requires d != e && !Conflicts(ps, d)
    ensures MatchingSize(ps, e) == 0.0
  {
    hide Trim, Upper;
    if ps != [] {
      var n := |ps| - 1;
      assert !Conflicts(ps[..n], d) by {
        assert forall i | 0 <= i < n :: ps[..n][i] == ps[i];
      }
      NoOtherSide(ps[..n], d, e);
      assert !(ps[n].size > 0.0 && MatchesDirection(ps[n].side, d) != Some(true));
    }
  }

  /**
   After a successful reconciliation no trade is closing, and in every pair that
   had an active trade the quantity open on each side is the size that the
   exchange holds on that side. The result does not depend on the order of the
   groups: it is a function of the trades and the answers.
   */
  lemma OpenQuantitiesMatchTheExchange(w: World, rows: seq<Trade>, i: nat, direction: Direction)
    requires CanReconcile(w, rows) && i < |rows| && Active(rows[i])
    ensures forall k | 0 <= k < |rows| :: !AllFinal(w, rows)[k].status.Closing?
    ensures OpenTotal(AllFinal(w, rows), GroupKey(rows[i].pair, direction))
         == MatchingSize(w.PositionsOf(rows[i].pair), direction)
  {
    var key := GroupKey(rows[i].pair, direction);
    var ps := w.PositionsOf(key.pair);
    hide MatchingSize, Conflicts, OpenTotal, ActiveTotal, Final, AllFinal, Fetched, WriteFails;
    NoneIsClosing(w, rows);
    OpenTotalOfFinal(w, rows, key);
    SizeIsNotNegative(ps, direction);
    assert Passes(w, rows, rows[i].Key());
    if rows[i].direction == direction {
      assert rows[i].Key() == key;
    } else if k: nat :| k < |rows| && Active(rows[k]) && rows[k].Key() == key {
      assert Passes(w, rows, rows[k].Key());
    } else {
      NoOtherSide(ps, rows[i].direction, direction);
    }
  }

  lemma NoneIsClosing(w: World, rows: seq<Trade>)
    ensures forall k | 0 <= k < |rows| :: !AllFinal(w, rows)[k].status.Closing?
  {
    hide MatchingSize, BestEffortExitPrice, ExecutedStop, PnlAt;
  }

  // ------------------------------------------------------------ starting again

  /** The same answers, whatever the writes do. */
  ghost predicate SameAnswers(w: World, again: World) { again == w.(write := again.write) }

  /** The start failed between adding the commission of an executed stop and closing its trade. */
  predicate ChargedButOpen(w: World, before: seq<Trade>, failed: Option<nat>)
    requires failed.Some? ==> failed.value < |before|
  {
    && failed.Some?
    && var i, t := failed.value, before[failed.value];
    && !w.HasMatching(t.Key()) && w.write(i).FailsAfterFees?
    && ExecutedStop(w, i, t).Some? && ExecutedStop(w, i, t).value.1 != 0.0
  }

  lemma FinalIsFinal(w: World, again: World, i: nat, t: Trade)
    requires SameAnswers(w, again)
    ensures Final(again, i, t) == Final(w, i, t) && Final(again, i, Final(w, i, t)) == Final(w, i, t)
  {
    hide MatchingSize, PnlAt;
  }

  /** The second start of the trade whose write failed. */
  lemma FinalAfterFailure(w: World, again: World, i: nat, t: Trade)
    requires SameAnswers(w, again) && WriteFails(w, i, t)
    ensures var f := Final(w, i, t);
      Final(again, i, AfterFailure(w, i, t))
      == if !w.HasMatching(t.Key()) && w.write(i).FailsAfterFees? && ExecutedStop(w, i, t).Some?
         then f.(fees := t.fees + 2.0 * ExecutedStop(w, i, t).value.1) else f
  {
    hide MatchingSize, PnlOf;
    FinalIsFinal(w, again, i, t);
  }

  /**
   A failed start followed by a successful one ends as one successful start does,
   except that a trade that was charged and not closed is charged its commission
   twice. So starting again is harmless exactly when no such trade was left.
   */
  lemma StartingAgain(w: World, again: World, before: seq<Trade>, rows: seq<Trade>, failed: Option<nat>)
    requires SameAnswers(w, again) && StoppedAt(w, before, rows, failed)
    ensures AllFinal(again, rows) == AllFinal(w, before) <==> !ChargedButOpen(w, before, failed)
    ensures ChargedButOpen(w, before, failed) ==>
      var i := failed.value;
      var f := Final(w, i, before[i]);
      && AllFinal(again, rows) == AllFinal(w, before)[i := f.(fees := before[i].fees + 2.0 * ExecutedStop(w, i, before[i]).value.1)]
      && f.fees == before[i].fees + ExecutedStop(w, i, before[i]).value.1
  {
    forall i: nat | i < |rows| && failed != Some(i) ensures Final(again, i, rows[i]) == Final(w, i, before[i]) {
      FinalIsFinal(w, again, i, before[i]);
    }
    if failed.Some? {
      FinalAfterFailure(w, again, failed.value, before[failed.value]);
    }
    hide AfterFailure, MatchingSize, PnlAt;
  }

  lemma {:induction false} SameTotals(rows: seq<Trade>, before: seq<Trade>, key: GroupKey)
    requires |rows| == |before|
    requires forall i: nat | i < |rows| :: rows[i].Key() == before[i].Key() && rows[i].quantity == before[i].quantity
    requires forall i: nat | i < |rows| && before[i].Key() == key :: Active(rows[i]) == Active(before[i])
    ensures ActiveTotal(rows, key) == ActiveTotal(before, key)
  {
    if rows != [] {
      var n := |rows| - 1;
      SameTotals(rows[..n], before[..n], key);
    }
  }

  lemma WhatStays(w: World, before: seq<Trade>, rows: seq<Trade>, failed: Option<nat>, i: nat)
    requires StoppedAt(w, before, rows, failed) && i < |rows|
    ensures rows[i].Key() == before[i].Key() && rows[i].quantity == before[i].quantity
    ensures Active(rows[i]) ==> Active(before[i])
    ensures w.HasMatching(before[i].Key()) ==> Active(rows[i]) == Active(before[i])
  {
    hide MatchingSize, PnlAt;
  }

  lemma PassesAgain(w: World, again: World, before: seq<Trade>, rows: seq<Trade>, failed: Option<nat>, key: GroupKey)
    requires SameAnswers(w, again) && StoppedAt(w, before, rows, failed)
    ensures Passes(again, rows, key) == Passes(w, before, key)
  {
    assert |rows| == |before|;
    hide StoppedAt, MatchingSize, Conflicts;
    forall i: nat | i < |rows| ensures rows[i].Key() == before[i].Key() && rows[i].quantity == before[i].quantity {
      WhatStays(w, before, rows, failed, i);
    }
    if w.HasMatching(key) {
      forall i: nat | i < |rows| && before[i].Key() == key ensures Active(rows[i]) == Active(before[i]) {
        WhatStays(w, before, rows, failed, i);
      }
      SameTotals(rows, before, key);
    }
  }

  /** When the writes succeed, the second start succeeds exactly when a first one would have. */
  lemma StartingAgainSucceedsExactlyWhen(w: World, again: World, before: seq<Trade>, rows: seq<Trade>, failed: Option<nat>)
    requires SameAnswers(w, again) && StoppedAt(w, before, rows, failed) && ChangedWherePassed(w, before, rows)
    requires forall i: nat | i < |rows| :: again.write(i).WriteOk?
    ensures CanReconcile(again, rows) <==> CanReconcile(again, before)
  {
    hide Passes, Final, AfterFailure, MatchingSize;
    StartReached(w, before);
    forall i: nat | i < |rows|
      ensures Passes(again, rows, before[i].Key()) == Passes(again, before, before[i].Key()) == Passes(w, before, before[i].Key())
      ensures rows[i].Key() == before[i].Key() && (Active(rows[i]) ==> Active(before[i]))
    {
      PassesAgain(w, again, before, rows, failed, before[i].Key());
      PassesAgain(w, again, before, before, None, before[i].Key());
      WhatStays(w, before, rows, failed, i);
    }
    if rows != before {
      var i: nat :| i < |rows| && rows[i] != before[i];
      assert Fetched(w, before);
    }
  }
}

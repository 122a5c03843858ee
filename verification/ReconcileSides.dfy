/** What the answers of the exchange mean for an account, read from their sides and sizes. */
module ReconcileSides {
  import opened Wrappers
  import opened Sizing
  import opened Reconcile

  // ------------------------------------------------------------------ the side

  /** The name of the side that opens a position in a direction. */
  function NameOf(d: Direction): string { if d.Long? then "BUY" else "SELL" }

  predicate IsWhite(c: char) { c as int == 32 || 9 <= c as int <= 13 }

  /** The letter `c` is the capital `u` or its small letter. */
  predicate SameLetter(c: char, u: char) { c == u || c as int == u as int + 32 }

  /** From `i` to `j` the side is the name in any letter case, and around that it is white space. */
  predicate ReadsBetween(side: string, name: string, i: nat, j: nat) {
    && i <= j <= |side| && j - i == |name|
    && (forall k | 0 <= k < |side| && !(i <= k < j) :: IsWhite(side[k]))
    && (forall k | 0 <= k < |name| :: SameLetter(side[i + k], name[k]))
  }

  ghost predicate Reads(side: string, name: string) {
    exists i: nat, j: nat :: ReadsBetween(side, name, i, j)
  }

  /** A word of capitals, as the two names are. */
  predicate IsWord(name: string) { name != "" && forall k | 0 <= k < |name| :: 'A' <= name[k] <= 'Z' }

  /** Trimming leaves what is between the first and the last character that is not white space. */
  lemma {:induction false} TrimIsBetween(s: string) returns (i: nat, j: nat)
    ensures i <= j <= |s| && Trim(s) == s[i..j]
    ensures forall k | 0 <= k < |s| && !(i <= k < j) :: IsWhite(s[k])
    ensures i < j ==> !IsWhite(s[i]) && !IsWhite(s[j - 1])
  {
    if s != [] && IsSpace(s[0]) {
      var a, b := TrimIsBetween(s[1..]);
      i, j := a + 1, b + 1;
    } else if s != [] && IsSpace(s[|s| - 1]) {
      i, j := TrimIsBetween(s[..|s| - 1]);
    } else {
      i, j := 0, |s|;
    }
  }

  lemma UpperIsTheWord(s: string, name: string)
    requires IsWord(name)
    ensures Upper(s) == name <==> |s| == |name| && forall k | 0 <= k < |name| :: SameLetter(s[k], name[k])
  {
    if |s| == |name| && forall k | 0 <= k < |name| :: SameLetter(s[k], name[k]) {
      forall k | 0 <= k < |s| ensures Upper(s)[k] == name[k] {
        assert SameLetter(s[k], name[k]) && 'A' <= name[k] <= 'Z';
      }
    }
    if Upper(s) == name {
      forall k | 0 <= k < |name| ensures SameLetter(s[k], name[k]) {
        assert Upper(s)[k] == name[k];
      }
    }
  }

  lemma TrimmedReads(side: string, name: string)
    requires IsWord(name)
    ensures Upper(Trim(side)) == name <==> Reads(side, name)
  {
    var i, j := TrimIsBetween(side);
    UpperIsTheWord(side[i..j], name);
    hide Upper, Trim;
    if Upper(side[i..j]) == name {
      assert forall k | 0 <= k < |name| :: side[i + k] == side[i..j][k];
      assert ReadsBetween(side, name, i, j);
    }
    if a: nat, b: nat :| ReadsBetween(side, name, a, b) {
      assert SameLetter(side[a + 0], name[0]) && SameLetter(side[a + (|name| - 1)], name[|name| - 1]);
      assert !IsWhite(side[a]) && !IsWhite(side[b - 1]);
      assert a == i && b == j;
      assert forall k | 0 <= k < |name| :: side[i..j][k] == side[a + k];
    }
  }

  /** A side counts for long positions exactly when it reads BUY, for short ones exactly when it reads SELL. */
  lemma SideIsWhatItReads(side: string, d: Direction)
    ensures MatchesDirection(side, d)
         == if Reads(side, "BUY") then Some(d.Long?) else if Reads(side, "SELL") then Some(d.Short?) else None
    ensures MatchesDirection(side, d) == Some(true) <==> Reads(side, NameOf(d))
  {
    hide Upper, Trim, Reads;
    TrimmedReads(side, "BUY");
    TrimmedReads(side, "SELL");
  }

  // ------------------------------------------------------------------- the sizes

  /** The size of the positions whose side reads as the name. */
  ghost function SizeOn(ps: seq<Position>, name: string): real {
    if ps == [] then 0.0
    else
      var p := ps[|ps| - 1];
      SizeOn(ps[..|ps| - 1], name) + if p.size > 0.0 && Reads(p.side, name) then p.size else 0.0
  }

  lemma {:induction false} MatchingSizeIsOnTheSide(ps: seq<Position>, d: Direction)
    ensures MatchingSize(ps, d) == SizeOn(ps, NameOf(d))
  {
    hide MatchesDirection, Reads;
    if ps != [] {
      MatchingSizeIsOnTheSide(ps[..|ps| - 1], d);
      SideIsWhatItReads(ps[|ps| - 1].side, d);
    }
  }

  ghost predicate OnlyOn(ps: seq<Position>, name: string) {
    forall k | 0 <= k < |ps| && ps[k].size > 0.0 :: Reads(ps[k].side, name)
  }

  lemma ConflictsAreOffTheSide(ps: seq<Position>, d: Direction)
    ensures Conflicts(ps, d) <==> !OnlyOn(ps, NameOf(d))
  {
    hide MatchesDirection, Reads;
    forall k | 0 <= k < |ps| ensures MatchesDirection(ps[k].side, d) == Some(true) <==> Reads(ps[k].side, NameOf(d)) {
      SideIsWhatItReads(ps[k].side, d);
    }
  }

  // ------------------------------------------------------------------ the account

  /** A group passes exactly when its pair has positions on its side only, of its total size or none at all. */
  lemma PassesExactlyWhen(w: World, rows: seq<Trade>, pair: string, d: Direction)
    requires w.positions(pair).Some?
    ensures var ps := w.positions(pair).value;
      Passes(w, rows, GroupKey(pair, d)) <==>
        OnlyOn(ps, NameOf(d)) && (SizeOn(ps, NameOf(d)) == 0.0 || SizeOn(ps, NameOf(d)) == ActiveTotal(rows, GroupKey(pair, d)))
  {
    var ps := w.positions(pair).value;
    MatchingSizeIsOnTheSide(ps, d);
    ConflictsAreOffTheSide(ps, d);
    SizeIsNotNegative(ps, d);
    hide MatchingSize, Conflicts, OnlyOn, SizeOn, ActiveTotal;
  }

  /** The active trades are all open, of one pair and in one direction. */
  predicate AllOpenIn(rows: seq<Trade>, pair: string, d: Direction) {
    forall i | 0 <= i < |rows| && Active(rows[i]) :: rows[i].status.Open? && rows[i].pair == pair && rows[i].direction == d
  }

  /** With positions of just their size on just their side, such trades are left as they are, whatever the writes do. */
  lemma HeldAccountIsUnchanged(w: World, rows: seq<Trade>, pair: string, d: Direction)
    requires AllOpenIn(rows, pair, d) && w.positions(pair).Some?
    requires var ps := w.positions(pair).value;
      OnlyOn(ps, NameOf(d)) && SizeOn(ps, NameOf(d)) == ActiveTotal(rows, GroupKey(pair, d)) > 0.0
    ensures CanReconcile(w, rows) && AllFinal(w, rows) == rows
  {
    var key := GroupKey(pair, d);
    PassesExactlyWhen(w, rows, pair, d);
    MatchingSizeIsOnTheSide(w.positions(pair).value, d);
    hide MatchingSize, OnlyOn, SizeOn, ActiveTotal, Passes;
    assert w.HasMatching(key);
    assert forall i | 0 <= i < |rows| && Active(rows[i]) :: rows[i].Key() == key;
  }

  /** A position of a pair whose side does not read as that of an active trade of the pair refuses the account. */
  lemma AnotherSideIsRefused(w: World, rows: seq<Trade>, i: nat, k: nat)
    requires i < |rows| && Active(rows[i])
    requires var ps := w.positions(rows[i].pair);
      ps.Some? && k < |ps.value| && ps.value[k].size > 0.0 && !Reads(ps.value[k].side, NameOf(rows[i].direction))
    ensures !CanReconcile(w, rows)
  {
    PassesExactlyWhen(w, rows, rows[i].pair, rows[i].direction);
    hide Passes, Reads, SizeOn;
    assert !OnlyOn(w.positions(rows[i].pair).value, NameOf(rows[i].direction));
    assert rows[i].Key() == GroupKey(rows[i].pair, rows[i].direction);
  }

  /** The whole part of what the price has moved in the direction, times the quantity. */
  ghost predicate IsResult(pnl: real, d: Direction, entry: real, quantity: real, exit: real) {
    IsWholePart(pnl, (if d.Long? then exit - entry else entry - exit) * quantity)
  }

  /**
   A trade without a position on its side is closed: at the price of its executed
   stop, else in the middle of the quote, else at its entry. Its result is the whole
   part of what the price has moved in its direction, times the quantity.
   */
  lemma ClosedAsTheAnswersSay(w: World, i: nat, t: Trade)
    requires Active(t) && w.positions(t.pair).Some? && SizeOn(w.positions(t.pair).value, NameOf(t.direction)) == 0.0
    ensures var f := Final(w, i, t);
      var stopped := t.status.Open? && w.stopFill(i).Some?;
      && f.status.Closed? && f.exitPrice.Some? && f.pnl.Some?
      && f == t.(status := Closed, exitPrice := f.exitPrice, pnl := f.pnl, fees := f.fees, exitReason := f.exitReason)
      && f.exitReason == Some(if stopped then SlHit else Reconciled)
      && f.fees == (if stopped then t.fees + w.stopFill(i).value.1 else t.fees)
      && f.exitPrice.value == (
           if stopped then w.stopFill(i).value.0
           else if w.bidAsk(t.pair).Some? then (w.bidAsk(t.pair).value.0 + w.bidAsk(t.pair).value.1) / 2.0
           else t.entryPrice)
      && IsResult(f.pnl.value, t.direction, t.entryPrice, t.quantity, f.exitPrice.value)
  {
    MatchingSizeIsOnTheSide(w.positions(t.pair).value, t.direction);
    var f := Final(w, i, t);
    hide MatchingSize, SizeOn;
    assert !w.HasMatching(t.Key());
    ResultIsTheWholePart(t.direction, t.entryPrice, t.quantity, f.exitPrice.value);
    hide PnlOf, IsResult;
  }

  lemma ResultIsTheWholePart(d: Direction, entry: real, quantity: real, exit: real)
    ensures IsResult(PnlOf(d, entry, quantity, exit), d, entry, quantity, exit)
  {
    hide Truncate, IsWholePart;
    TruncateIsTheWholePart((if d.Long? then exit - entry else entry - exit) * quantity);
  }

  /** A trade needs a write exactly when it changes. */
  lemma WritesAreForChanges(w: World, i: nat, t: Trade)
    ensures WriteFails(w, i, t) <==> Final(w, i, t) != t && !w.write(i).WriteOk?
  {
    hide MatchingSize, PnlOf, BestEffortExitPrice;
  }

  /** What a close gives back to the balance is the margin of the trade and its result, and nothing else is. */
  lemma ClosingReleasesTheMargin(w: World, i: nat, t: Trade)
    requires t.leverage != 0.0
    ensures var f := Final(w, i, t);
      f.leverage == t.leverage && Tied(t) - Tied(f) ==
        if Active(t) && f.status.Closed? then MarginOf(t.entryPrice, t.quantity, t.leverage) + f.pnl.value else 0.0
  {
    hide MatchingSize, PnlOf, BestEffortExitPrice, MarginOf;
  }

  /** What the answers must be for trade `i`: its pair is read, its group is whole or gone, and it can be written if it changes. */
  ghost predicate CanBeReconciled(w: World, rows: seq<Trade>, i: nat)
    requires i < |rows|
  {
    var t := rows[i];
    && w.positions(t.pair).Some?
    && var ps := w.positions(t.pair).value;
    && OnlyOn(ps, NameOf(t.direction))
    && (SizeOn(ps, NameOf(t.direction)) == 0.0 || SizeOn(ps, NameOf(t.direction)) == ActiveTotal(rows, GroupKey(t.pair, t.direction)))
    && (Final(w, i, t) != t ==> w.write(i).WriteOk?)
  }

  /** An account is reconciled exactly when each of its trades that is not closed can be. */
  lemma ReconciledExactlyWhen(w: World, rows: seq<Trade>)
    ensures CanReconcile(w, rows) <==> forall i: nat | i < |rows| && !rows[i].status.Closed? :: CanBeReconciled(w, rows, i)
  {
    hide OnlyOn, SizeOn, ActiveTotal, Passes, Final, WriteFails;
    forall i: nat | i < |rows|
      ensures WriteFails(w, i, rows[i]) <==> Final(w, i, rows[i]) != rows[i] && !w.write(i).WriteOk?
      ensures !Active(rows[i]) ==> !WriteFails(w, i, rows[i])
      ensures Active(rows[i]) && w.positions(rows[i].pair).Some? ==>
        (Passes(w, rows, rows[i].Key()) && !WriteFails(w, i, rows[i]) <==> CanBeReconciled(w, rows, i))
    {
      WritesAreForChanges(w, i, rows[i]);
      ClosedStays(w, i, rows[i]);
      if w.positions(rows[i].pair).Some? {
        PassesExactlyWhen(w, rows, rows[i].pair, rows[i].direction);
      }
    }
    hide CanBeReconciled;
    assert (forall i | 0 <= i < |rows| :: !WriteFails(w, i, rows[i])) <==>
      forall i: nat | i < |rows| && Active(rows[i]) :: !WriteFails(w, i, rows[i]);
  }

  /**
   A failed write leaves a trade as it was, or, between the commission of an executed
   stop and the close, with that commission only, or, after the close, as it should be.
   The lock of a trade that is still held is released in one write or not at all.
   */
  lemma WhatAFailureLeaves(w: World, i: nat, t: Trade)
    requires WriteFails(w, i, t) && w.positions(t.pair).Some?
    ensures var held := SizeOn(w.positions(t.pair).value, NameOf(t.direction)) > 0.0;
      var stopped := t.status.Open? && w.stopFill(i).Some?;
      AfterFailure(w, i, t)
      == if !held && w.write(i).FailsAfterClose? then Final(w, i, t)
         else if !held && w.write(i).FailsAfterFees? && stopped then t.(fees := t.fees + w.stopFill(i).value.1)
         else t
  {
    MatchingSizeIsOnTheSide(w.positions(t.pair).value, t.direction);
    hide MatchingSize, SizeOn, Final;
  }
}

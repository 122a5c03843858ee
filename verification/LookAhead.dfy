/** What a decider may see of the aggregated series. */
module LookAhead {
  import opened IntArith
  import opened Market
  import opened Series

  // A dataset aggregates all its bars and shows, at each M5 bar, the aggregated bars
  // that count as complete. This looks ahead exactly when two bars open in one
  // five-minute slot.

  /** No two successive bars open in the same slot of five minutes. */
  predicate OnePerSlot(bars: seq<Bar>) {
    forall i | 0 <= i < |bars| - 1 :: Bucket(bars[i], M5_SECS) != Bucket(bars[i + 1], M5_SECS)
  }

  predicate SameTimes(a: seq<Bar>, b: seq<Bar>) {
    |a| == |b| && forall i | 0 <= i < |a| :: a[i].openTime == b[i].openTime
  }

  ghost predicate AllValid(bars: seq<Bar>) { forall i | 0 <= i < |bars| :: bars[i].Valid() }

  function Limit(bars: seq<Bar>, t: nat): int
    requires t < |bars|
  {
    bars[t].openTime + M5_SECS
  }

  /** The aggregated bars that count as complete at bar `t`, of a series of all bars. */
  function Completed(bars: seq<Bar>, tf: Tf, t: nat): seq<TfBar>
    requires t < |bars|
  {
    var all := Aggregated(bars, tf.Secs());
    all[..Done(all, Limit(bars, t))]
  }

  /** They are the same, and as many, when the series is built from the bars up to `t` only. */
  predicate NeedsNoLaterBar(bars: seq<Bar>, tf: Tf, t: nat)
    requires t < |bars|
  {
    Completed(bars, tf, t) == Completed(bars[..t + 1], tf, t)
  }

  /** The bucket of bar `t` counts as complete although the next bar still falls into it. */
  predicate StillFills(bars: seq<Bar>, secs: int, t: nat)
    requires secs > 0 && t < |bars|
  {
    t + 1 < |bars| && Bucket(bars[t + 1], secs) == Bucket(bars[t], secs) && BucketEnd(bars[t], secs) <= Limit(bars, t)
  }

  // ---------------------------------------------------------- the seen series

  lemma {:induction false} EndIsOfABar(bars: seq<Bar>, secs: int, g: nat) returns (m: nat)
    requires secs > 0 && g < |Aggregated(bars, secs)|
    ensures m < |bars| && Aggregated(bars, secs)[g].endTime == BucketEnd(bars[m], secs)
  {
    hide EndOf, Bucket;
    var n := |bars| - 1;
    if g < |Aggregated(bars[..n], secs)| {
      m := EndIsOfABar(bars[..n], secs, g);
    } else {
      m := n;
    }
  }

  /** Different buckets end at least one length apart. */
  lemma EndsAreApart(a: Bar, b: Bar, secs: int)
    requires secs > 0 && BucketEnd(a, secs) < BucketEnd(b, secs)
    ensures BucketEnd(a, secs) + secs <= BucketEnd(b, secs)
  {
    var x, y := Bucket(a, secs), Bucket(b, secs);
    MulOrder(x + 1, y + 1, secs);
    MulMonotone(x + 2, y + 1, secs);
  }

  /** What is aggregated from later buckets has not ended at bar `t`. */
  lemma LaterBarsAreNotComplete(bars: seq<Bar>, secs: int, t: nat, g: nat)
    requires secs >= M5_SECS && Ascending(bars) && t < |bars|
    requires |Aggregated(bars[..t + 1], secs)| <= g < |Aggregated(bars, secs)|
    ensures Aggregated(bars, secs)[g].endTime > Limit(bars, t)
  {
    hide EndOf, Bucket, BucketEnd, Aggregated;
    var seen, all := Aggregated(bars[..t + 1], secs), Aggregated(bars, secs);
    SameLastEnd(bars, secs, t + 1);
    LastEnd(bars[..t + 1], secs);
    AggregatedEndsIncrease(bars, secs);
    assert all[|seen| - 1].endTime < all[g].endTime;
    var m := EndIsOfABar(bars, secs, g);
    EndsAreApart(bars[t], bars[m], secs);
    BucketBounds(bars[t], secs);
  }

  /** How many bars are complete: all seen ones, or all but the last. */
  lemma CountOfSeen(bars: seq<Bar>, secs: int, t: nat) returns (c: nat)
    requires secs >= M5_SECS && Ascending(bars) && t < |bars|
    ensures var seen, all := Aggregated(bars[..t + 1], secs), Aggregated(bars, secs);
      && 0 < |seen| <= |all| && seen[..|seen| - 1] == all[..|seen| - 1]
      && c == Done(seen, Limit(bars, t)) == Done(all, Limit(bars, t))
      && c == (if BucketEnd(bars[t], secs) <= Limit(bars, t) then |seen| else |seen| - 1)
      && (c > 0 ==> all[c - 1].endTime <= Limit(bars, t)) && (c < |all| ==> all[c].endTime > Limit(bars, t))
  {
    hide EndOf, Bucket, BucketEnd, Aggregated;
    var seen, all, limit := Aggregated(bars[..t + 1], secs), Aggregated(bars, secs), Limit(bars, t);
    LaterBarsOnlyTouchTheEnd(bars, secs, t + 1);
    SameLastEnd(bars, secs, t + 1);
    LastEnd(bars[..t + 1], secs);
    AggregatedEndsIncrease(bars, secs);
    AggregatedEndsIncrease(bars[..t + 1], secs);
    EarlierEnds(bars[..t + 1], secs);
    if |seen| > 1 {
      assert seen[|seen| - 2].endTime <= bars[t].openTime;
    }
    if |seen| < |all| {
      LaterBarsAreNotComplete(bars, secs, t, |seen|);
    }
    c := if BucketEnd(bars[t], secs) <= limit then |seen| else |seen| - 1;
    DoneIsAPrefix(all, limit, c);
    DoneIsAPrefix(seen, limit, c);
  }

  /** The counts never look ahead, whatever the open times, and they count the bars that have ended. */
  lemma CountsNeedNoLaterBar(bars: seq<Bar>, tf: Tf, t: nat)
    requires Ascending(bars) && t < |bars|
    ensures var all := Aggregated(bars, tf.Secs());
      var c := Done(all, Limit(bars, t));
      && c == Done(Aggregated(bars[..t + 1], tf.Secs()), Limit(bars, t))
      && forall g | 0 <= g < |all| :: g < c <==> all[g].endTime <= Limit(bars, t)
  {
    hide Aggregated, Done;
    var all := Aggregated(bars, tf.Secs());
    var c := CountOfSeen(bars, tf.Secs(), t);
    AggregatedEndsIncrease(bars, tf.Secs());
    forall g | 0 <= g < |all| ensures g < c <==> all[g].endTime <= Limit(bars, t) {
      assert g + 1 < c ==> all[g].endTime < all[c - 1].endTime;
      assert g > c ==> all[c].endTime < all[g].endTime;
    }
  }

  /** A bar counted as complete that no later bar falls into does not change any more. */
  lemma CompletedBarsNeedNoLaterBar(bars: seq<Bar>, tf: Tf, t: nat)
    requires Ascending(bars) && t < |bars| && !StillFills(bars, tf.Secs(), t)
    ensures NeedsNoLaterBar(bars, tf, t)
  {
    hide EndOf, Bucket, BucketEnd, Aggregated;
    var secs := tf.Secs();
    var seen, all := Aggregated(bars[..t + 1], secs), Aggregated(bars, secs);
    var c := CountOfSeen(bars, secs, t);
    LaterBarsOnlyTouchTheEnd(bars, secs, t + 1);
    if t + 1 == |bars| {
      assert bars[..t + 1] == bars;
    } else if c < |seen| {
      assert seen[..c] == all[..c];
    }
  }

  // --------------------------------------------------------------- the converse

  /** Bars at the given times whose closes differ all. */
  function Rising(bars: seq<Bar>): (r: seq<Bar>)
    ensures SameTimes(r, bars)
    ensures forall i | 0 <= i < |r| :: r[i].Valid() && r[i].Mid2Close() == 2 * (i + 1)
  {
    seq(|bars|, i requires 0 <= i < |bars| =>
      Bar(bars[i].openTime, 1, |bars| + 1, 1, i + 1, 1, |bars| + 1, 1, i + 1))
  }

  lemma {:induction false} LastClose(bars: seq<Bar>, secs: int)
    requires secs > 0 && bars != []
    ensures var s := Aggregated(bars, secs); s[|s| - 1].close == bars[|bars| - 1].Mid2Close()
  {
    hide EndOf, Bucket;
  }

  /** The close of a bucket that is still filled moves with the later bars. */
  lemma {:induction false} CloseMoves(bars: seq<Bar>, secs: int, k: nat)
    requires secs > 0 && 0 < k < |bars| && Bucket(bars[k], secs) == Bucket(bars[k - 1], secs)
    requires forall i, j | 0 <= i < j < |bars| :: bars[i].Mid2Close() < bars[j].Mid2Close()
    ensures var s, a := Aggregated(bars[..k], secs), Aggregated(bars, secs);
      |s| <= |a| && s[|s| - 1].close < a[|s| - 1].close
  {
    hide Aggregated, Bucket;
    var n := |bars| - 1;
    LastClose(bars[..k], secs);
    NextAggregated(bars, secs);
    if k < n {
      CloseMoves(bars[..n], secs, k);
      assert bars[..n][..k] == bars[..k];
      assert bars[k - 1].Mid2Close() < bars[n].Mid2Close();
    }
  }

  /** Where a bucket still fills, some valid bars at the same times show a bar that a later one changes. */
  lemma ALaterBarShows(bars: seq<Bar>, tf: Tf, t: nat)
    requires Ascending(bars) && t < |bars| && StillFills(bars, tf.Secs(), t)
    ensures AllValid(Rising(bars)) && SameTimes(Rising(bars), bars) && !NeedsNoLaterBar(Rising(bars), tf, t)
  {
    RisingBarsShow(Rising(bars), tf, t);
  }

  lemma RisingBarsShow(bars: seq<Bar>, tf: Tf, t: nat)
    requires Ascending(bars) && t < |bars| && StillFills(bars, tf.Secs(), t)
    requires forall i, j | 0 <= i < j < |bars| :: bars[i].Mid2Close() < bars[j].Mid2Close()
    ensures !NeedsNoLaterBar(bars, tf, t)
  {
    hide EndOf, Bucket, BucketEnd, Aggregated, Done;
    var secs := tf.Secs();
    var c := CountOfSeen(bars, secs, t);
    CloseMoves(bars, secs, t + 1);
    var seen, all := Aggregated(bars[..t + 1], secs), Aggregated(bars, secs);
    assert Completed(bars[..t + 1], tf, t) == seen[..c] && Completed(bars, tf, t) == all[..c];
    assert seen[..c][c - 1].close < all[..c][c - 1].close;
  }

  /**
   At one bar and timeframe: whatever the prices, valid or not, the completed bars
   need no later bar, exactly when the bucket of the bar is not both complete and
   still filling.
   */
  lemma NoLookAheadAtBar(bars: seq<Bar>, tf: Tf, t: nat)
    requires Ascending(bars) && t < |bars|
    ensures (forall other | SameTimes(other, bars) :: NeedsNoLaterBar(other, tf, t)) <==> !StillFills(bars, tf.Secs(), t)
    ensures (forall other | SameTimes(other, bars) && AllValid(other) :: NeedsNoLaterBar(other, tf, t))
       <==> !StillFills(bars, tf.Secs(), t)
  {
    hide NeedsNoLaterBar;
    if StillFills(bars, tf.Secs(), t) {
      ALaterBarShows(bars, tf, t);
    } else {
      forall other | SameTimes(other, bars) ensures NeedsNoLaterBar(other, tf, t) {
        assert Ascending(other) && !StillFills(other, tf.Secs(), t);
        CompletedBarsNeedNoLaterBar(other, tf, t);
      }
    }
  }

  // ----------------------------------------------- the condition on a dataset

  /** A bucket that is complete and still fills has two bars in its last slot of five minutes. */
  lemma FillingSharesASlot(bars: seq<Bar>, tf: Tf, t: nat)
    requires Ascending(bars) && t < |bars| && StillFills(bars, tf.Secs(), t)
    ensures Bucket(bars[t], M5_SECS) == Bucket(bars[t + 1], M5_SECS)
  {
    var secs := tf.Secs();
    BucketBounds(bars[t + 1], secs);
    assert bars[t].openTime < bars[t + 1].openTime;
    EndIsOnTheGrid(bars[t], tf);
    SameSlot(bars[t].openTime, bars[t + 1].openTime, BucketEnd(bars[t], secs));
  }

  lemma EndIsOnTheGrid(b: Bar, tf: Tf)
    ensures BucketEnd(b, tf.Secs()) % M5_SECS == 0
  {
    var k := Bucket(b, tf.Secs()) + 1;
    hide Bucket;
    match tf
    case M5 => MultipleOfSlot(k);
    case M15 => MultipleOfSlot(3 * k);
    case H1 => MultipleOfSlot(12 * k);
    case H4 => MultipleOfSlot(48 * k);
  }

  lemma MultipleOfSlot(k: int)
    ensures k * M5_SECS % M5_SECS == 0
  {
  }

  lemma SameSlot(x: int, y: int, end: int)
    requires end % M5_SECS == 0 && end - M5_SECS <= x < y < end
    ensures x / M5_SECS == y / M5_SECS
  {
  }

  /** Two bars in one slot: at M5 the first one is complete when the second one falls into it. */
  lemma SlotStillFills(bars: seq<Bar>, t: nat)
    requires t + 1 < |bars| && Bucket(bars[t], M5_SECS) == Bucket(bars[t + 1], M5_SECS)
    ensures StillFills(bars, M5.Secs(), t)
  {
    BucketBounds(bars[t], M5_SECS);
  }

  /** At every bar and timeframe and whatever the prices, the completed bars need no later bar. */
  ghost predicate NeverLooksAhead(bars: seq<Bar>) {
    forall tf: Tf, t: nat, other: seq<Bar> | t < |bars| && SameTimes(other, bars) :: NeedsNoLaterBar(other, tf, t)
  }

  /** A dataset never looks ahead exactly when no two successive bars open in one slot of five minutes. */
  lemma NoLookAheadExactlyWhenOnePerSlot(bars: seq<Bar>)
    requires Ascending(bars)
    ensures NeverLooksAhead(bars) <==> OnePerSlot(bars)
  {
    hide NeedsNoLaterBar, StillFills;
    if OnePerSlot(bars) {
      forall tf: Tf, t: nat, other: seq<Bar> | t < |bars| && SameTimes(other, bars) ensures NeedsNoLaterBar(other, tf, t) {
        if StillFills(bars, tf.Secs(), t) {
          FillsHasNext(bars, tf, t);
          FillingSharesASlot(bars, tf, t);
        }
        NoLookAheadAtBar(bars, tf, t);
      }
    }
    if i: nat :| i < |bars| - 1 && Bucket(bars[i], M5_SECS) == Bucket(bars[i + 1], M5_SECS) {
      SlotStillFills(bars, i);
      NoLookAheadAtBar(bars, M5, i);
    }
  }

  lemma FillsHasNext(bars: seq<Bar>, tf: Tf, t: nat)
    requires t < |bars| && StillFills(bars, tf.Secs(), t)
    ensures t + 1 < |bars|
  {
  }

  const FIRST := Bar(0, 1, 1, 1, 1, 1, 1, 1, 1)
  const SECOND := Bar(100, 1, 2, 1, 2, 1, 2, 1, 2)

  lemma FirstSlot()
    ensures Aggregated([FIRST], 300) == [TfBar(2, 2, 2, 2, 300)]
    ensures Aggregated([FIRST, SECOND], 300) == [TfBar(2, 4, 2, 4, 300)]
  {
    assert [FIRST][..0] == [] && [FIRST, SECOND][..1] == [FIRST];
    assert Aggregated([FIRST], 300) == [TfBar(2, 2, 2, 2, 300)];
  }

  lemma DoneOfOne(g: TfBar, limit: int)
    requires g.endTime <= limit
    ensures Done([g], limit) == 1
  {
    assert [g][..0] == [];
  }

  /** Bars at 0 and 100 seconds: at the first one, the close of its M5 bar is already that of the second. */
  lemma TwoBarsInOneSlot()
    ensures var bars := [FIRST, SECOND];
      && Ascending(bars) && AllValid(bars)
      && Completed(bars, M5, 0) == [TfBar(2, 4, 2, 4, 300)]
      && Completed(bars[..1], M5, 0) == [TfBar(2, 2, 2, 2, 300)]
  {
    hide Aggregated, Done;
    assert [FIRST, SECOND][..1] == [FIRST];
    FirstSlot();
    DoneOfOne(TfBar(2, 2, 2, 2, 300), 300);
    DoneOfOne(TfBar(2, 4, 2, 4, 300), 300);
  }

  /** Bars on the five-minute grid have slots of their own. */
  lemma GridBarsHaveTheirSlots(bars: seq<Bar>)
    requires Ascending(bars) && forall i | 0 <= i < |bars| :: bars[i].openTime % M5_SECS == 0
    ensures OnePerSlot(bars)
  {
  }

  // ------------------------------------------------------------ the base timeframe

  /** With slots of their own, every M5 bar is an aggregated bar of its own. */
  lemma {:induction false} M5SeriesIsTheBars(bars: seq<Bar>)
    requires OnePerSlot(bars)
    ensures |Aggregated(bars, M5_SECS)| == |bars|
  {
    hide Bucket, EndOf;
    if bars != [] {
      M5SeriesIsTheBars(bars[..|bars| - 1]);
    }
  }

  lemma {:induction false} SharedSlotIsOneBar(bars: seq<Bar>, i: nat)
    requires i + 1 < |bars| && Bucket(bars[i], M5_SECS) == Bucket(bars[i + 1], M5_SECS)
    ensures |Aggregated(bars, M5_SECS)| < |bars|
  {
    hide Bucket, EndOf;
    var n := |bars| - 1;
    AtMostAsMany(bars[..n]);
    if i + 1 < n {
      SharedSlotIsOneBar(bars[..n], i);
    }
  }

  lemma {:induction false} AtMostAsMany(bars: seq<Bar>)
    ensures |Aggregated(bars, M5_SECS)| <= |bars|
  {
    hide Bucket, EndOf;
    if bars != [] {
      AtMostAsMany(bars[..|bars| - 1]);
    }
  }

  /** The bars complete at M5 bar `t` are those aggregated from the bars up to it. */
  lemma M5CountIsSeen(bars: seq<Bar>, t: nat)
    requires Ascending(bars) && t < |bars|
    ensures Done(Aggregated(bars, M5_SECS), Limit(bars, t)) == |Aggregated(bars[..t + 1], M5_SECS)|
  {
    var c := CountOfSeen(bars, M5_SECS, t);
    BucketBounds(bars[t], M5_SECS);
  }

  /** At M5 the count at `t` is `t + 1` for every bar, exactly under the same condition. */
  lemma M5CompletesAtOnce(bars: seq<Bar>)
    requires Ascending(bars)
    ensures (forall t | 0 <= t < |bars| :: Done(Aggregated(bars, M5_SECS), Limit(bars, t)) == t + 1) <==> OnePerSlot(bars)
  {
    hide Bucket, EndOf, Aggregated, Done;
    if OnePerSlot(bars) {
      forall t | 0 <= t < |bars| ensures Done(Aggregated(bars, M5_SECS), Limit(bars, t)) == t + 1 {
        M5CountIsSeen(bars, t);
        M5SeriesIsTheBars(bars[..t + 1]);
      }
    }
    if i: nat :| i < |bars| - 1 && Bucket(bars[i], M5_SECS) == Bucket(bars[i + 1], M5_SECS) {
      var t := i + 1;
      M5CountIsSeen(bars, t);
      SharedSlotIsOneBar(bars[..t + 1], i);
      assert Done(Aggregated(bars, M5_SECS), Limit(bars, t)) < t + 1;
    }
  }
}

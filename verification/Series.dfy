/**
 The timeframe series of `crates/sim/src/series.rs`: M5 bars aggregated into
 larger bars, and how many of those are complete at each M5 bar. Prices stay in
 mid2 units.
 */
module Series {
  import opened IntArith
  import opened Wrappers
  import opened Market

  const SECS_PER_DAY: int := 86_400

  datatype Tf = M5 | M15 | H1 | H4
  {
    function Secs(): (s: int)
      ensures s >= M5_SECS && s % M5_SECS == 0
    {
      match this
      case M5 => M5_SECS
      case M15 => 900
      case H1 => 3600
      case H4 => 14400
    }
  }

  datatype TfBar = TfBar(open: int, high: int, low: int, close: int, endTime: int)

  /** Open times are in strictly ascending order. */
  ghost predicate Ascending(bars: seq<Bar>) {
    forall i, j | 0 <= i < j < |bars| :: bars[i].openTime < bars[j].openTime
  }

  // ------------------------------------------------------------- the aggregation

  function Bucket(b: Bar, secs: int): int
    requires secs > 0
  {
    b.openTime / secs
  }

  function EndOf(bucket: int, secs: int): int {
    (bucket + 1) * secs
  }

  function BucketEnd(b: Bar, secs: int): int
    requires secs > 0
  {
    EndOf(Bucket(b, secs), secs)
  }

  function Single(b: Bar, secs: int): TfBar
    requires secs > 0
  {
    TfBar(b.Mid2Open(), b.Mid2High(), b.Mid2Low(), b.Mid2Close(), BucketEnd(b, secs))
  }

  function Absorb(g: TfBar, b: Bar): TfBar {
    g.(high := Max(g.high, b.Mid2High()), low := Min(g.low, b.Mid2Low()), close := b.Mid2Close())
  }

  /** The series of the bars seen so far: a bar of the same bucket joins the last aggregated bar. */
  function Aggregated(bars: seq<Bar>, secs: int): (s: seq<TfBar>)
    requires secs > 0
    ensures bars == [] <==> s == []
  {
    if bars == [] then []
    else
      var n := |bars| - 1;
      var s := Aggregated(bars[..n], secs);
      if n > 0 && Bucket(bars[n], secs) == Bucket(bars[n - 1], secs) then s[|s| - 1 := Absorb(s[|s| - 1], bars[n])]
      else s + [Single(bars[n], secs)]
  }

  method Aggregate(bars: seq<Bar>, tf: Tf) returns (series: seq<TfBar>)
    ensures series == Aggregated(bars, tf.Secs())
  {
    hide Bucket, EndOf, Max, Min, Aggregated;
    var secs, n := tf.Secs(), |bars|;
    series := [];
    var idx := 0;
    while idx < n
      invariant 0 <= idx <= n
      invariant series == Aggregated(bars[..idx], secs)
      invariant 0 < idx < n ==> Bucket(bars[idx], secs) != Bucket(bars[idx - 1], secs)
    {
      var bucket := Bucket(bars[idx], secs);
      var open, high, low, close := bars[idx].Mid2Open(), bars[idx].Mid2High(), bars[idx].Mid2Low(), bars[idx].Mid2Close();
      var j := idx + 1;
      AggregateStep(bars, secs, idx);
      while j < n && Bucket(bars[j], secs) == bucket
        invariant idx < j <= n
        invariant Bucket(bars[j - 1], secs) == bucket
        invariant Aggregated(bars[..j], secs) == series + [TfBar(open, high, low, close, EndOf(bucket, secs))]
      {
        AggregateStep(bars, secs, j);
        high := Max(high, bars[j].Mid2High());
        low := Min(low, bars[j].Mid2Low());
        close := bars[j].Mid2Close();
        j := j + 1;
      }
      series := series + [TfBar(open, high, low, close, EndOf(bucket, secs))];
      idx := j;
    }
    assert bars[..n] == bars;
  }

  lemma AggregateStep(bars: seq<Bar>, secs: int, k: nat)
    requires secs > 0 && k < |bars|
    ensures var s := Aggregated(bars[..k], secs);
      Aggregated(bars[..k + 1], secs) ==
        if k > 0 && Bucket(bars[k], secs) == Bucket(bars[k - 1], secs) then s[|s| - 1 := Absorb(s[|s| - 1], bars[k])]
        else s + [Single(bars[k], secs)]
  {
    assert bars[..k + 1][..k] == bars[..k];
  }

  // -------------------------------------------------- what the aggregated bars are

  /** `g` summarises exactly the bars from `lo` up to `hi`. */
  ghost predicate Summarises(g: TfBar, bars: seq<Bar>, secs: int, lo: nat, hi: nat)
    requires secs > 0
  {
    && lo < hi <= |bars|
    && g.open == bars[lo].bidOpen + bars[lo].askOpen && g.close == bars[hi - 1].bidClose + bars[hi - 1].askClose
    && (forall i | lo <= i < hi :: g.low <= bars[i].bidLow + bars[i].askLow && bars[i].bidHigh + bars[i].askHigh <= g.high)
    && (exists i :: lo <= i < hi && g.high == bars[i].bidHigh + bars[i].askHigh)
    && (exists i :: lo <= i < hi && g.low == bars[i].bidLow + bars[i].askLow)
    && (forall i | lo <= i < hi :: BucketEnd(bars[i], secs) == g.endTime)
  }

  /** `cuts` are the borders of the maximal runs of bars in one bucket, one run for each aggregated bar. */
  ghost predicate IsCutting(s: seq<TfBar>, bars: seq<Bar>, secs: int, cuts: seq<nat>)
    requires secs > 0
  {
    && |cuts| == |s| + 1 && cuts[0] == 0 && cuts[|s|] == |bars|
    && (forall k: nat | k < |s| :: Summarises(s[k], bars, secs, cuts[k], cuts[k + 1]))
    && (forall k: nat | k + 1 < |s| :: s[k].endTime != s[k + 1].endTime)
  }

  lemma SummaryGrows(g: TfBar, bars: seq<Bar>, secs: int, lo: nat)
    requires secs > 0 && bars != []
    requires Summarises(g, bars[..|bars| - 1], secs, lo, |bars| - 1)
    requires BucketEnd(bars[|bars| - 1], secs) == g.endTime
    ensures Summarises(Absorb(g, bars[|bars| - 1]), bars, secs, lo, |bars|)
  {
    var n := |bars| - 1;
    var i :| lo <= i < n && g.high == bars[..n][i].Mid2High();
    var j :| lo <= j < n && g.low == bars[..n][j].Mid2Low();
    var h := Absorb(g, bars[n]);
    assert h.high == bars[if bars[n].Mid2High() > g.high then n else i].Mid2High();
    assert h.low == bars[if bars[n].Mid2Low() < g.low then n else j].Mid2Low();
    forall k | lo <= k < |bars|
      ensures h.low <= bars[k].Mid2Low() && bars[k].Mid2High() <= h.high && BucketEnd(bars[k], secs) == h.endTime
    {
      if k < n {
        assert bars[..n][k] == bars[k];
      }
    }
  }

  lemma SummaryOfPrefix(g: TfBar, bars: seq<Bar>, secs: int, n: nat, lo: nat, hi: nat)
    requires secs > 0 && n <= |bars| && Summarises(g, bars[..n], secs, lo, hi)
    ensures Summarises(g, bars, secs, lo, hi)
  {
    var i :| lo <= i < hi && g.high == bars[..n][i].Mid2High();
    var j :| lo <= j < hi && g.low == bars[..n][j].Mid2Low();
    assert bars[i] == bars[..n][i] && bars[j] == bars[..n][j];
    forall k | lo <= k < hi
      ensures g.low <= bars[k].Mid2Low() && bars[k].Mid2High() <= g.high && BucketEnd(bars[k], secs) == g.endTime
    {
      assert bars[..n][k] == bars[k];
    }
  }

  lemma EqualBuckets(a: Bar, b: Bar, secs: int)
    requires secs > 0
    ensures BucketEnd(a, secs) == BucketEnd(b, secs) <==> Bucket(a, secs) == Bucket(b, secs)
  {
  }

  lemma SummaryEnd(g: TfBar, bars: seq<Bar>, secs: int, lo: nat, hi: nat)
    requires secs > 0 && Summarises(g, bars, secs, lo, hi)
    ensures 0 <= hi - 1 < |bars| && BucketEnd(bars[hi - 1], secs) == g.endTime
  {
  }

  lemma SingleSummary(bars: seq<Bar>, secs: int)
    requires secs > 0 && bars != []
    ensures Summarises(Single(bars[|bars| - 1], secs), bars, secs, |bars| - 1, |bars|)
  {
  }

  /** The aggregation cuts the bars into the maximal runs of one bucket and summarises each. */
  lemma {:induction false} AggregationCuts(bars: seq<Bar>, secs: int) returns (cuts: seq<nat>)
    requires secs > 0
    ensures IsCutting(Aggregated(bars, secs), bars, secs, cuts)
  {
    hide Bucket, EndOf, Max, Min;
    if bars == [] {
      return [0];
    }
    hide IsCutting;
    var n := |bars| - 1;
    var s := Aggregated(bars[..n], secs);
    var before := AggregationCuts(bars[..n], secs);
    if n > 0 && Bucket(bars[n], secs) == Bucket(bars[n - 1], secs) {
      CutMoves(s, bars, secs, before);
      cuts := before[|s| := |bars|];
    } else {
      OneMoreCut(s, bars, secs, before);
      cuts := before + [|bars|];
    }
  }

  /** A bar of the last bucket moves the last border. */
  lemma CutMoves(s: seq<TfBar>, bars: seq<Bar>, secs: int, before: seq<nat>)
    requires secs > 0 && |bars| > 1 && s != [] && IsCutting(s, bars[..|bars| - 1], secs, before)
    requires Bucket(bars[|bars| - 1], secs) == Bucket(bars[|bars| - 2], secs)
    ensures |before| == |s| + 1
    ensures IsCutting(s[|s| - 1 := Absorb(s[|s| - 1], bars[|bars| - 1])], bars, secs, before[|s| := |bars|])
  {
    hide Bucket, BucketEnd, EndOf, Max, Min, Summarises;
    var n, last := |bars| - 1, |s| - 1;
    SummaryEnd(s[last], bars[..n], secs, before[last], n);
    EqualBuckets(bars[n], bars[n - 1], secs);
    SummaryGrows(s[last], bars, secs, before[last]);
    forall k: nat | k < last ensures Summarises(s[k], bars, secs, before[k], before[k + 1]) {
      SummaryOfPrefix(s[k], bars, secs, n, before[k], before[k + 1]);
    }
  }

  /** A bar of another bucket adds a border. */
  lemma OneMoreCut(s: seq<TfBar>, bars: seq<Bar>, secs: int, before: seq<nat>)
    requires secs > 0 && bars != [] && IsCutting(s, bars[..|bars| - 1], secs, before)
    requires if |bars| == 1 then s == [] else s != [] && Bucket(bars[|bars| - 1], secs) != Bucket(bars[|bars| - 2], secs)
    ensures IsCutting(s + [Single(bars[|bars| - 1], secs)], bars, secs, before + [|bars|])
  {
    hide Bucket, BucketEnd, EndOf, Summarises;
    var n := |bars| - 1;
    SingleSummary(bars, secs);
    if n > 0 {
      SummaryEnd(s[|s| - 1], bars[..n], secs, before[|s| - 1], n);
      EqualBuckets(bars[n], bars[n - 1], secs);
    }
    forall k: nat | k < |s| ensures Summarises(s[k], bars, secs, before[k], before[k + 1]) {
      SummaryOfPrefix(s[k], bars, secs, n, before[k], before[k + 1]);
    }
  }

  // ------------------------------------------------------------- completed bars

  ghost predicate EndsIncrease(s: seq<TfBar>) {
    forall i, j | 0 <= i < j < |s| :: s[i].endTime < s[j].endTime
  }

  /** How many bars of a series have ended by `limit`. */
  function Done(s: seq<TfBar>, limit: int): (c: nat)
    ensures c <= |s|
  {
    if s == [] then 0 else Done(s[..|s| - 1], limit) + if s[|s| - 1].endTime <= limit then 1 else 0
  }

  /** In a series with increasing end times the bars that have ended are the first ones. */
  lemma {:induction false} DoneIsAPrefix(s: seq<TfBar>, limit: int, c: nat)
    requires EndsIncrease(s) && c <= |s|
    requires (c > 0 ==> s[c - 1].endTime <= limit) && (c < |s| ==> s[c].endTime > limit)
    ensures Done(s, limit) == c
  {
    if s != [] {
      var n := |s| - 1;
      if c == |s| {
        if n > 0 {
          assert s[n - 1].endTime < s[n].endTime;
        }
        DoneIsAPrefix(s[..n], limit, n);
      } else {
        if c < n {
          assert s[c].endTime < s[n].endTime;
        }
        DoneIsAPrefix(s[..n], limit, c);
      }
    }
  }

  method CompletedCounts(bars: seq<Bar>, series: seq<TfBar>) returns (result: seq<nat>)
    requires Ascending(bars) && EndsIncrease(series)
    ensures |result| == |bars|
    ensures forall t | 0 <= t < |bars| :: result[t] == Done(series, bars[t].openTime + M5_SECS)
  {
    result := [];
    var ptr := 0;
    for k := 0 to |bars|
      invariant |result| == k && 0 <= ptr <= |series|
      invariant forall t | 0 <= t < k :: result[t] == Done(series, bars[t].openTime + M5_SECS)
      invariant ptr > 0 ==> k > 0 && series[ptr - 1].endTime <= bars[k - 1].openTime + M5_SECS
    {
      while ptr < |series| && series[ptr].endTime <= bars[k].openTime + M5_SECS
        invariant 0 <= ptr <= |series|
        invariant ptr > 0 ==> series[ptr - 1].endTime <= bars[k].openTime + M5_SECS
      {
        ptr := ptr + 1;
      }
      DoneIsAPrefix(series, bars[k].openTime + M5_SECS, ptr);
      result := result + [ptr];
    }
  }

  /** A bucket ends at the next multiple of its length. */
  lemma BucketBounds(b: Bar, secs: int)
    requires secs > 0
    ensures b.openTime < BucketEnd(b, secs) <= b.openTime + secs && BucketEnd(b, secs) % secs == 0
  {
    MultipleIs(Bucket(b, secs) + 1, secs);
  }

  lemma BucketsAscend(a: Bar, b: Bar, secs: int)
    requires secs > 0
    ensures a.openTime < b.openTime && Bucket(a, secs) != Bucket(b, secs) ==> BucketEnd(a, secs) <= b.openTime
  {
    var x, y := Bucket(a, secs), Bucket(b, secs);
    if y < x {
      MulMonotone(y + 1, x, secs);
    } else if x < y {
      MulMonotone(x + 1, y, secs);
    }
  }

  lemma {:induction false} LastEnd(bars: seq<Bar>, secs: int)
    requires secs > 0 && bars != []
    ensures Aggregated(bars, secs)[|Aggregated(bars, secs)| - 1].endTime == BucketEnd(bars[|bars| - 1], secs)
  {
    hide EndOf, Bucket;
    if |bars| > 1 {
      LastEnd(bars[..|bars| - 1], secs);
    }
  }

  lemma {:induction false} AggregatedEndsIncrease(bars: seq<Bar>, secs: int)
    requires secs > 0 && Ascending(bars)
    ensures EndsIncrease(Aggregated(bars, secs))
  {
    hide EndOf, Bucket;
    if |bars| > 1 {
      var n := |bars| - 1;
      AggregatedEndsIncrease(bars[..n], secs);
      LastEnd(bars[..n], secs);
      BucketBounds(bars[n], secs);
      if Bucket(bars[n], secs) != Bucket(bars[n - 1], secs) {
        BucketsAscend(bars[n - 1], bars[n], secs);
      }
    }
  }

  /** The next bar leaves all but the last aggregated bar alone, and of that one the end. */
  lemma NextAggregated(bars: seq<Bar>, secs: int)
    requires secs > 0 && |bars| > 1
    ensures var n := |bars| - 1;
      var s, a := Aggregated(bars[..n], secs), Aggregated(bars, secs);
      var last := |s| - 1;
      && s != [] && |s| <= |a| && s[..last] == a[..last]
      && a[last].endTime == s[last].endTime
      && (a[last].close == s[last].close || a[last].close == bars[n].Mid2Close())
      && (Bucket(bars[n], secs) != Bucket(bars[n - 1], secs) ==> s == a[..|s|] && |s| < |a|)
      && (Bucket(bars[n], secs) == Bucket(bars[n - 1], secs) ==> |s| == |a| && a[last].close == bars[n].Mid2Close())
  {
    hide EndOf, Bucket, Max, Min;
  }

  /** Later bars leave all but the last aggregated bar alone, and that one too if they are of another bucket. */
  lemma {:induction false} LaterBarsOnlyTouchTheEnd(bars: seq<Bar>, secs: int, k: nat)
    requires secs > 0 && 0 < k <= |bars|
    ensures var s, a := Aggregated(bars[..k], secs), Aggregated(bars, secs);
      && |s| <= |a| && s[..|s| - 1] == a[..|s| - 1]
      && (k < |bars| && Bucket(bars[k], secs) != Bucket(bars[k - 1], secs) ==> s == a[..|s|] && |s| < |a|)
      && (k == |bars| ==> s == a)
  {
    hide Aggregated, Bucket;
    var n := |bars| - 1;
    if k == |bars| {
      assert bars[..k] == bars;
    } else {
      LaterBarsOnlyTouchTheEnd(bars[..n], secs, k);
      assert bars[..n][..k] == bars[..k];
      NextAggregated(bars, secs);
    }
  }

  lemma {:induction false} SameLastEnd(bars: seq<Bar>, secs: int, k: nat)
    requires secs > 0 && 0 < k <= |bars|
    ensures var s, a := Aggregated(bars[..k], secs), Aggregated(bars, secs);
      |s| <= |a| && a[|s| - 1].endTime == s[|s| - 1].endTime
  {
    hide Aggregated, Bucket;
    var n := |bars| - 1;
    if k == |bars| {
      assert bars[..k] == bars;
    } else {
      SameLastEnd(bars[..n], secs, k);
      assert bars[..n][..k] == bars[..k];
      NextAggregated(bars, secs);
    }
  }

  /** A bar that is not the last aggregated one had ended when the last M5 bar opened. */
  lemma {:induction false} EarlierEnds(bars: seq<Bar>, secs: int)
    requires secs > 0 && Ascending(bars)
    ensures forall g | 0 <= g < |Aggregated(bars, secs)| - 1 ::
              Aggregated(bars, secs)[g].endTime <= bars[|bars| - 1].openTime
  {
    hide EndOf, Bucket;
    if |bars| > 1 {
      var n := |bars| - 1;
      EarlierEnds(bars[..n], secs);
      LastEnd(bars[..n], secs);
      BucketsAscend(bars[n - 1], bars[n], secs);
    }
  }

  // ------------------------------------------------------------------ the window

  /** The partition point: how many leading bars open before `x`. */
  function OpenBefore(bars: seq<Bar>, x: int): (c: nat)
    ensures c <= |bars|
    ensures forall i | 0 <= i < c :: bars[i].openTime < x
    ensures c < |bars| ==> bars[c].openTime >= x
  {
    if bars == [] || bars[0].openTime >= x then 0 else 1 + OpenBefore(bars[1..], x)
  }

  function MidnightOf(t: int): int {
    t / SECS_PER_DAY * SECS_PER_DAY
  }

  function NextMidnight(t: int): int {
    (t / SECS_PER_DAY + 1) * SECS_PER_DAY
  }

  function EarliestFrom(bars: seq<Bar>, warmup: nat): Option<int> {
    if warmup == 0 then if bars == [] then None else Some(MidnightOf(bars[0].openTime))
    else if warmup - 1 < |bars| then Some(NextMidnight(bars[warmup - 1].openTime))
    else None
  }

  datatype Window = Window(bars: seq<Bar>, evalStart: nat)

  datatype WindowError = NoBars | TooFewWarmupBars(earliest: Option<int>)

  datatype WindowResult = Ok(window: Window) | Err(error: WindowError)

  method SelectWindow(all: seq<Bar>, from: int, to: int, warmup: nat) returns (r: WindowResult)
    requires Ascending(all)
    ensures r.Err? && r.error.NoBars? <==> forall i | 0 <= i < |all| :: !(from <= all[i].openTime < to)
    ensures r.Err? && r.error.TooFewWarmupBars? ==>
              OpenBefore(all, from) < warmup && r.error.earliest == EarliestFrom(all, warmup)
    ensures r.Ok? ==>
      var w, start := r.window, OpenBefore(all, from);
      && warmup <= start && start - warmup + |w.bars| <= |all|
      && w.evalStart == warmup < |w.bars|
      && w.bars == all[start - warmup..start - warmup + |w.bars|]
      && forall i | 0 <= i < |all| :: from <= all[i].openTime < to <==> start <= i < start - warmup + |w.bars|
  {
    var start, end := OpenBefore(all, from), OpenBefore(all, to);
    if end <= start {
      forall i | 0 <= i < |all| ensures !(from <= all[i].openTime < to) {
        if start <= i && end < i {
          assert all[end].openTime < all[i].openTime;
        }
      }
      return Err(NoBars);
    }
    assert from <= all[start].openTime < to;
    if start < warmup {
      return Err(TooFewWarmupBars(EarliestFrom(all, warmup)));
    }
    r := Ok(Window(all[start - warmup..end], warmup));
    forall i | 0 <= i < |all| ensures from <= all[i].openTime < to <==> start <= i < end {
      if start < i {
        assert all[start].openTime < all[i].openTime;
      }
      if end < i {
        assert all[end].openTime < all[i].openTime;
      }
    }
  }

  /** Without warmup bars the start is the midnight at or before the first bar, and there is none exactly without bars. */
  lemma EarliestFromWithoutWarmup(bars: seq<Bar>)
    ensures var r := EarliestFrom(bars, 0);
      && (r.None? <==> bars == [])
      && (r.Some? ==> r.value % 86400 == 0 && r.value <= bars[0].openTime < r.value + 86400)
  {
  }

  lemma EnoughBefore(bars: seq<Bar>, warmup: nat, m: int)
    requires Ascending(bars) && 1 <= warmup <= |bars|
    ensures OpenBefore(bars, m) >= warmup <==> bars[warmup - 1].openTime < m
  {
    var c := OpenBefore(bars, m);
    if c < warmup - 1 {
      assert bars[c].openTime < bars[warmup - 1].openTime;
    }
  }

  /**
   The start named in the error is exactly the earliest midnight that has enough
   warmup bars before it; none is named exactly when there are too few bars.
   */
  lemma EarliestFromIsEarliest(bars: seq<Bar>, warmup: nat)
    requires Ascending(bars) && warmup >= 1
    ensures EarliestFrom(bars, warmup).None? <==> |bars| < warmup
    ensures EarliestFrom(bars, warmup).Some? ==>
      var ts := EarliestFrom(bars, warmup).value;
      && ts % SECS_PER_DAY == 0 && OpenBefore(bars, ts) >= warmup
      && forall m | m % SECS_PER_DAY == 0 :: OpenBefore(bars, m) >= warmup ==> ts <= m
  {
    hide OpenBefore, NextMidnight, Ascending;
    if warmup <= |bars| {
      var last := bars[warmup - 1].openTime;
      var ts := NextMidnight(last);
      MidnightFacts(last);
      EnoughBefore(bars, warmup, ts);
      forall m | m % SECS_PER_DAY == 0 && OpenBefore(bars, m) >= warmup ensures ts <= m {
        EnoughBefore(bars, warmup, m);
      }
    }
  }

  lemma MidnightFacts(t: int)
    ensures NextMidnight(t) % SECS_PER_DAY == 0 && t < NextMidnight(t) <= t + SECS_PER_DAY
    ensures forall m | m % SECS_PER_DAY == 0 && t < m :: NextMidnight(t) <= m
  {
  }
}

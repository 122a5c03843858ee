/**
 The largest fall of a running total from its peak. Three places compute it with
 their own loop: `crates/sim/src/eval.rs`, `crates/db/src/summary.rs` and
 `crates/backtest/src/report.rs`.
 */
module Drawdown {
  /** The total of the first `n` values. */
  function Total(pnls: seq<real>, n: nat): real
    requires n <= |pnls|
  {
    if n == 0 then 0.0 else Total(pnls, n - 1) + pnls[n - 1]
  }

  /** The totals begin with nothing, and each adds its value. */
  lemma TotalsAddUp(pnls: seq<real>, n: nat)
    requires n < |pnls|
    ensures Total(pnls, 0) == 0.0 && Fall(pnls, n, n + 1) == -pnls[n]
  {
  }

  function Fall(pnls: seq<real>, i: nat, j: nat): real
    requires i <= |pnls| && j <= |pnls|
  {
    Total(pnls, i) - Total(pnls, j)
  }

  /** `d` is the largest fall from a total to a later one. */
  ghost predicate IsDrawdown(pnls: seq<real>, d: real) {
    IsDrawdownUpTo(pnls, |pnls|, d)
  }

  ghost predicate IsDrawdownUpTo(pnls: seq<real>, n: nat, d: real)
    requires n <= |pnls|
  {
    FallsAtMost(pnls, n, d) && FallsBy(pnls, n, d)
  }

  ghost predicate FallsAtMost(pnls: seq<real>, n: nat, d: real)
    requires n <= |pnls|
  {
    forall i, j | 0 <= i <= j <= n :: Fall(pnls, i, j) <= d
  }

  ghost predicate FallsBy(pnls: seq<real>, n: nat, d: real)
    requires n <= |pnls|
  {
    exists i, j :: 0 <= i <= j <= n && Fall(pnls, i, j) == d
  }

  /** `peak` is the largest of the first totals. */
  ghost predicate IsPeak(pnls: seq<real>, n: nat, peak: real)
    requires n <= |pnls|
  {
    && (forall i | 0 <= i <= n :: Total(pnls, i) <= peak)
    && exists i :: 0 <= i <= n && Total(pnls, i) == peak
  }

  ghost predicate Tracked(pnls: seq<real>, n: nat, peak: real, d: real)
    requires n <= |pnls|
  {
    IsPeak(pnls, n, peak) && IsDrawdownUpTo(pnls, n, d)
  }

  lemma TrackedAtStart(pnls: seq<real>)
    ensures Tracked(pnls, 0, 0.0, 0.0)
  {
    assert Total(pnls, 0) == 0.0 && Fall(pnls, 0, 0) == 0.0;
  }

  lemma TrackNext(pnls: seq<real>, n: nat, peak: real, d: real)
    requires n < |pnls| && Tracked(pnls, n, peak, d)
    ensures var t := Total(pnls, n + 1);
      var peak' := if t > peak then t else peak;
      var d' := if peak' - t > d then peak' - t else d;
      Tracked(pnls, n + 1, peak', d')
  {
    var t := Total(pnls, n + 1);
    var peak' := if t > peak then t else peak;
    hide Total;
    assert IsPeak(pnls, n + 1, peak');
    FallNext(pnls, n + 1, peak', d);
  }

  lemma FallNext(pnls: seq<real>, n: nat, peak: real, d: real)
    requires 0 < n <= |pnls| && IsPeak(pnls, n, peak) && IsDrawdownUpTo(pnls, n - 1, d)
    ensures var last := peak - Total(pnls, n);
      IsDrawdownUpTo(pnls, n, if last > d then last else d)
  {
    hide Total, Fall;
    var last := peak - Total(pnls, n);
    var d' := if last > d then last else d;
    assert FallsAtMost(pnls, n, d') by {
      hide FallsBy;
      forall i, j | 0 <= i <= j <= n ensures Fall(pnls, i, j) <= d' {
        if j == n {
          FallFromPeak(pnls, n, peak, i);
        }
      }
    }
    assert FallsBy(pnls, n, d') by {
      hide FallsAtMost;
      if last > d {
        var top: nat :| top <= n && Total(pnls, top) == peak;
        FallFromPeak(pnls, n, peak, top);
      }
    }
  }

  lemma FallFromPeak(pnls: seq<real>, n: nat, peak: real, i: nat)
    requires i <= n <= |pnls| && IsPeak(pnls, n, peak)
    ensures Fall(pnls, i, n) == Total(pnls, i) - Total(pnls, n) <= peak - Total(pnls, n)
  {
  }

  lemma DrawdownIsUnique(pnls: seq<real>, d: real, e: real)
    requires IsDrawdown(pnls, d) && IsDrawdown(pnls, e)
    ensures d == e && d >= 0.0
  {
    assert Fall(pnls, 0, 0) <= d;
  }

  function Reals(pnls: seq<int>): (r: seq<real>)
    ensures |r| == |pnls| && forall i | 0 <= i < |r| :: r[i] == pnls[i] as real
  {
    seq(|pnls|, i requires 0 <= i < |pnls| => pnls[i] as real)
  }

  /** The loop over the trades of a simulation, in milli units. */
  method OfSimulation(pnls: seq<int>) returns (maxDd: int)
    ensures IsDrawdown(Reals(pnls), maxDd as real)
  {
    hide Tracked;
    ghost var r := Reals(pnls);
    var peak, cumulative := 0, 0;
    maxDd := 0;
    TrackedAtStart(r);
    for n := 0 to |pnls|
      invariant cumulative as real == Total(r, n)
      invariant Tracked(r, n, peak as real, maxDd as real)
    {
      TrackNext(r, n, peak as real, maxDd as real);
      cumulative := cumulative + pnls[n];
      peak := if cumulative > peak then cumulative else peak;
      maxDd := if peak - cumulative > maxDd then peak - cumulative else maxDd;
    }
    TrackedToTheEnd(r, peak as real, maxDd as real);
  }

  lemma TrackedToTheEnd(pnls: seq<real>, peak: real, d: real)
    requires Tracked(pnls, |pnls|, peak, d)
    ensures IsDrawdown(pnls, d)
  {
  }

  /** The loop over the trades closed in a day. */
  method OfDay(pnls: seq<real>) returns (maxDd: real)
    ensures IsDrawdown(pnls, maxDd)
  {
    hide Tracked;
    var peak, equity := 0.0, 0.0;
    maxDd := 0.0;
    TrackedAtStart(pnls);
    for n := 0 to |pnls|
      invariant equity == Total(pnls, n)
      invariant Tracked(pnls, n, peak, maxDd)
    {
      TrackNext(pnls, n, peak, maxDd);
      equity := equity + pnls[n];
      if equity > peak {
        peak := equity;
      }
      var dd := peak - equity;
      if dd > maxDd {
        maxDd := dd;
      }
    }
    TrackedToTheEnd(pnls, peak, maxDd);
  }

  /** The loop over the closed trades of a backtest, which starts at the initial balance. */
  method OfBacktest(pnls: seq<real>, initial: real) returns (maxDd: real)
    ensures IsDrawdown(pnls, maxDd)
  {
    hide Tracked;
    var peak, equity := initial, initial;
    maxDd := 0.0;
    TrackedAtStart(pnls);
    for n := 0 to |pnls|
      invariant equity == initial + Total(pnls, n)
      invariant Tracked(pnls, n, peak - initial, maxDd)
    {
      TrackNext(pnls, n, peak - initial, maxDd);
      equity := equity + pnls[n];
      if equity > peak {
        peak := equity;
      }
      var dd := peak - equity;
      if dd > maxDd {
        maxDd := dd;
      }
    }
    TrackedToTheEnd(pnls, peak - initial, maxDd);
  }
}

/** The indicators in closed form: what each price or candle contributes, and with which weight. */
module Smoothing {
  import opened RealArith
  import opened Wrappers
  import opened Indicators

  // ------------------------------------------------------- exponential smoothing

  function Pow(q: real, n: nat): real { if n == 0 then 1.0 else q * Pow(q, n - 1) }

  /** What is left of `x` after `age` more values. */
  function Rest(q: real, age: nat, x: real): real { Pow(q, age) * x }

  /** What is left of the values from `from` to `n`. */
  function Aged(xs: seq<real>, q: real, from: nat, n: nat): (s: seq<real>)
    requires from <= n <= |xs|
    ensures |s| == n - from && forall i | 0 <= i < |s| :: s[i] == Rest(q, n - 1 - from - i, xs[from + i])
  {
    seq(n - from, i requires 0 <= i < n - from => Rest(q, n - 1 - from - i, xs[from + i]))
  }

  /** The start, aged by all the values since `from`, and those values, each aged by the ones after it, with weight `w`. */
  function Exponential(start: real, xs: seq<real>, from: nat, n: nat, q: real, w: real): real
    requires from <= n <= |xs|
  {
    Rest(q, n - from, start) + w * Sum(Aged(xs, q, from, n))
  }

  lemma {:induction false} SumScaled(xs: seq<real>, ys: seq<real>, q: real)
    requires |xs| == |ys| && forall i | 0 <= i < |xs| :: xs[i] == q * ys[i]
    ensures Sum(xs) == q * Sum(ys)
  {
    if xs != [] {
      var n := |xs| - 1;
      SumScaled(xs[..n], ys[..n], q);
      assert q * Sum(ys[..n]) + q * ys[n] == q * (Sum(ys[..n]) + ys[n]);
    }
  }

  lemma SumOfScaled(s: seq<real>, t: seq<real>, q: real, x: real)
    requires |s| == |t| + 1 && s[|t|] == x && forall i | 0 <= i < |t| :: s[i] == q * t[i]
    ensures Sum(s) == q * Sum(t) + x
  {
    SumScaled(s[..|t|], t, q);
  }

  lemma AgedNext(xs: seq<real>, q: real, from: nat, n: nat)
    requires from < n <= |xs|
    ensures Sum(Aged(xs, q, from, n)) == q * Sum(Aged(xs, q, from, n - 1)) + xs[n - 1]
  {
    hide Aged, Sum, Rest;
    AgedOnce(xs, q, from, n);
    SumOfScaled(Aged(xs, q, from, n), Aged(xs, q, from, n - 1), q, xs[n - 1]);
  }

  lemma AgedOnce(xs: seq<real>, q: real, from: nat, n: nat)
    requires from < n <= |xs|
    ensures var s, t := Aged(xs, q, from, n), Aged(xs, q, from, n - 1);
      |s| == |t| + 1 && s[|t|] == xs[n - 1] && forall i | 0 <= i < |t| :: s[i] == q * t[i]
  {
    var s, t := Aged(xs, q, from, n), Aged(xs, q, from, n - 1);
    NotAged(q, xs[n - 1]);
    hide Rest;
    forall i | 0 <= i < |t| ensures s[i] == q * t[i] {
      AgedBy(q, n - 2 - from - i, xs[from + i], t[i]);
    }
  }

  lemma NotAged(q: real, x: real)
    ensures Rest(q, 0, x) == x
  {
  }

  lemma AgedBy(q: real, k: nat, x: real, y: real)
    requires y == Rest(q, k, x)
    ensures Rest(q, k + 1, x) == q * y
  {
    assert q * Pow(q, k) * x == q * (Pow(q, k) * x);
  }

  function AgedAndAdded(q: real, w: real, before: real, x: real): real { q * before + w * x }

  /** One more value: the average so far is aged once and the value is added with its weight. */
  lemma ExponentialNext(start: real, xs: seq<real>, from: nat, n: nat, q: real, w: real)
    requires from < n <= |xs|
    ensures Exponential(start, xs, from, n, q, w) == AgedAndAdded(q, w, Exponential(start, xs, from, n - 1, q, w), xs[n - 1])
  {
    hide Aged, Sum, Rest;
    AgedNext(xs, q, from, n);
    var k := n - 1 - from;
    AgedBy(q, k, start, Rest(q, k, start));
    OneMoreWeighted(q, w, Rest(q, k + 1, start), Rest(q, k, start), Sum(Aged(xs, q, from, n)), Sum(Aged(xs, q, from, n - 1)), xs[n - 1]);
  }

  lemma OneMoreWeighted(q: real, w: real, aged: real, before: real, sum: real, sumBefore: real, x: real)
    requires aged == q * before && sum == q * sumBefore + x
    ensures aged + w * sum == q * (before + w * sumBefore) + w * x
  {
    assert w * (q * sumBefore + x) == w * (q * sumBefore) + w * x;
    assert w * (q * sumBefore) == q * (w * sumBefore);
    assert q * (before + w * sumBefore) == q * before + q * (w * sumBefore);
  }

  lemma ExponentialStart(start: real, xs: seq<real>, from: nat, q: real, w: real)
    requires from <= |xs|
    ensures Exponential(start, xs, from, from, q, w) == start
  {
    assert Aged(xs, q, from, from) == [];
  }

  // ------------------------------------------------------------ EMA, ATR and ADX

  /** What stays of a value after one step of Wilder smoothing. */
  function Kept(period: nat): real
    requires period >= 1
  {
    (period as real - 1.0) / period as real
  }

  lemma StepOfEma(e: real, x: real, w: real)
    ensures Toward(e, x, w) == AgedAndAdded(1.0 - w, w, e, x)
  {
    assert (x - e) * w == x * w - e * w;
  }

  /** The EMA is the mean of the first prices and the later prices, weighted by 2 / (period + 1) and aged by the rest. */
  lemma {:induction false} EmaIs(prices: seq<real>, period: nat, n: nat)
    requires 1 <= period <= n <= |prices|
    ensures var w := 2.0 / (period as real + 1.0);
      EmaOf(prices, period, n)
      == Exponential(Sum(prices[..period]) / period as real, prices, period, n, 1.0 - w, w)
  {
    var w := 2.0 / (period as real + 1.0);
    var start := Sum(prices[..period]) / period as real;
    assert EmaMultiplier(period) == w;
    hide Toward, Exponential, EmaMultiplier, Sum, EmaOf, AgedAndAdded;
    if n == period {
      EmaStart(prices, period);
      ExponentialStart(start, prices, period, 1.0 - w, w);
    } else {
      EmaIs(prices, period, n - 1);
      EmaNext(prices, period, n);
      ExponentialNext(start, prices, period, n, 1.0 - w, w);
    }
  }

  lemma EmaStart(prices: seq<real>, period: nat)
    requires 1 <= period <= |prices|
    ensures EmaOf(prices, period, period) == Sum(prices[..period]) / period as real
  {
  }

  lemma EmaNext(prices: seq<real>, period: nat, n: nat)
    requires 1 <= period < n <= |prices|
    ensures var w := EmaMultiplier(period);
      EmaOf(prices, period, n) == AgedAndAdded(1.0 - w, w, EmaOf(prices, period, n - 1), prices[n - 1])
  {
    hide Toward, EmaMultiplier, AgedAndAdded;
    StepOfEma(EmaOf(prices, period, n - 1), prices[n - 1], EmaMultiplier(period));
  }

  lemma StepOfWilder(avg: real, x: real, p: real)
    requires p >= 1.0
    ensures WilderStep(avg, x, p) == AgedAndAdded((p - 1.0) / p, 1.0 / p, avg, x)
  {
    var q, r := (p - 1.0) / p, 1.0 / p;
    assert q * p == p - 1.0 && r * p == 1.0;
    assert (q * avg + r * x) * p == q * p * avg + r * p * x;
    DivIs(avg * (p - 1.0) + x, p, q * avg + r * x);
  }

  /** The Wilder average is the mean of the first values and the later values, weighted by 1 / period and aged by the rest. */
  lemma {:induction false} WilderIs(xs: seq<real>, period: nat, n: nat)
    requires 1 <= period <= n <= |xs|
    ensures WilderOf(xs, period, n)
         == Exponential(Sum(xs[..period]) / period as real, xs, period, n, Kept(period), 1.0 / period as real)
  {
    hide WilderStep, Exponential, AgedAndAdded, Sum;
    var p := period as real;
    var start := Sum(xs[..period]) / p;
    if n == period {
      ExponentialStart(start, xs, period, Kept(period), 1.0 / p);
    } else {
      WilderIs(xs, period, n - 1);
      StepOfWilder(WilderOf(xs, period, n - 1), xs[n - 1], p);
      ExponentialNext(start, xs, period, n, Kept(period), 1.0 / p);
    }
  }

  lemma StepOfSum(s: real, x: real, p: real)
    requires p >= 1.0
    ensures s - s / p + x == AgedAndAdded((p - 1.0) / p, 1.0, s, x)
  {
    var q, r := (p - 1.0) / p, s / p;
    assert q * p == p - 1.0 && r * p == s;
    assert (s - r) * p == q * s * p;
    Cancel(s - r, p);
    Cancel(q * s, p);
  }

  /** The sum of the first values and the later values, aged as in a Wilder average. */
  function WilderSum(xs: seq<real>, period: nat, n: nat): real
    requires 1 <= period <= n <= |xs|
  {
    Exponential(Sum(xs[..period]), xs, period, n, Kept(period), 1.0)
  }

  lemma {:induction false} SmoothedIs(xs: seq<real>, period: nat, n: nat)
    requires 1 <= period <= n <= |xs|
    ensures SmoothedOf(xs, period, n) == WilderSum(xs, period, n)
  {
    hide Exponential, AgedAndAdded, Sum;
    if n == period {
      ExponentialStart(Sum(xs[..period]), xs, period, Kept(period), 1.0);
    } else {
      SmoothedIs(xs, period, n - 1);
      StepOfSum(SmoothedOf(xs, period, n - 1), xs[n - 1], period as real);
      ExponentialNext(Sum(xs[..period]), xs, period, n, Kept(period), 1.0);
    }
  }

  /** Of two successive candles, the reach of the second one beyond the first, above and below. */
  function ReachUp(highs: seq<real>, i: nat): real
    requires 1 <= i < |highs|
  {
    MaxR(highs[i] - highs[i - 1], 0.0)
  }

  function ReachDown(lows: seq<real>, i: nat): real
    requires 1 <= i < |lows|
  {
    MaxR(lows[i - 1] - lows[i], 0.0)
  }

  /** The larger reach is a movement in its direction, and two equal ones are none. */
  lemma LargerReachMoves(highs: seq<real>, lows: seq<real>, i: nat)
    requires 1 <= i < |highs| && i < |lows|
    ensures PlusDm(highs, lows, i) == if ReachUp(highs, i) > ReachDown(lows, i) then ReachUp(highs, i) else 0.0
    ensures MinusDm(highs, lows, i) == if ReachDown(lows, i) > ReachUp(highs, i) then ReachDown(lows, i) else 0.0
  {
  }

  /** The true range of a candle reaches from its low to its high, and to the close before it. */
  lemma TrueRangeReachesTheClose(highs: seq<real>, lows: seq<real>, closes: seq<real>, i: nat)
    requires 1 <= i < |highs| && i < |lows| && i <= |closes| && lows[i] <= highs[i]
    ensures TrueRange(highs, lows, closes, i) == MaxR(highs[i], closes[i - 1]) - MinR(lows[i], closes[i - 1])
  {
  }

  /** How far the two directional indicators are apart, in percent of their sum. */
  function Apart(plusDi: real, minusDi: real): real {
    if plusDi + minusDi == 0.0 then 0.0 else Abs(plusDi - minusDi) / (plusDi + minusDi) * 100.0
  }

  /** The directional indices by the Wilder sums of the movements, each in percent of that of the ranges. */
  function Indices(plus: seq<real>, minus: seq<real>, ranges: seq<real>, period: nat, n: nat): seq<real>
    requires 1 <= period <= n <= |plus| && n <= |minus| && n <= |ranges|
  {
    if n == period then []
    else
      var range := WilderSum(ranges, period, n);
      Indices(plus, minus, ranges, period, n - 1)
      + if range == 0.0 then []
        else [Apart(WilderSum(plus, period, n) / range * 100.0, WilderSum(minus, period, n) / range * 100.0)]
  }

  lemma ApartIsDx(plus: real, minus: real, range: real)
    requires plus >= 0.0 && minus >= 0.0 && range > 0.0
    ensures Apart(plus / range * 100.0, minus / range * 100.0) == Dx(plus, minus)
  {
    hide Dx;
    RangeCancels(plus, minus, range);
    if plus + minus == 0.0 {
      NoMovement(plus, minus);
    }
  }

  lemma {:induction false} DxsAreIndices(plus: seq<real>, minus: seq<real>, ranges: seq<real>, period: nat, n: nat)
    requires 1 <= period <= n <= |plus| && n <= |minus| && n <= |ranges|
    requires NonNegative(plus) && NonNegative(minus) && NonNegative(ranges)
    ensures DxsOf(plus, minus, ranges, period, n) == Indices(plus, minus, ranges, period, n)
  {
    hide Dx, Apart, WilderSum, SmoothedOf;
    if n > period {
      DxsAreIndices(plus, minus, ranges, period, n - 1);
      SmoothedIs(plus, period, n);
      SmoothedIs(minus, period, n);
      SmoothedIs(ranges, period, n);
      SmoothedIsNotNegative(plus, period, n);
      SmoothedIsNotNegative(minus, period, n);
      SmoothedIsNotNegative(ranges, period, n);
      if SmoothedOf(ranges, period, n) != 0.0 {
        ApartIsDx(SmoothedOf(plus, period, n), SmoothedOf(minus, period, n), SmoothedOf(ranges, period, n));
      }
    }
  }

  /**
   The ADX averages the directional indices of all candles with a range. It needs
   twice the period and one candle more, and as many indices as the period.
   */
  lemma AdxIs(highs: seq<real>, lows: seq<real>, closes: seq<real>, period: nat)
    requires period >= 1 && |lows| >= |highs| && |closes| + 1 >= |highs|
    ensures AdxOf(highs, lows, closes, period)
         == if |highs| < 2 * period + 1 || |lows| < 2 * period + 1 || |closes| < 2 * period + 1 then None
            else
              var s := Indices(
                PlusDms(highs, lows), MinusDms(highs, lows), TrueRanges(highs, lows, closes), period, |highs| - 1);
              if |s| < period then None
              else Some(Exponential(
                Sum(s[..period]) / period as real, s, period, |s|, Kept(period), 1.0 / period as real))
  {
    hide Exponential, PlusDm, MinusDm, TrueRange, DxsOf, Indices;
    if |highs| >= 2 * period + 1 && |lows| >= 2 * period + 1 && |closes| >= 2 * period + 1 {
      var plus, minus, ranges := PlusDms(highs, lows), MinusDms(highs, lows), TrueRanges(highs, lows, closes);
      DxsAreIndices(plus, minus, ranges, period, |ranges|);
      var s := Indices(plus, minus, ranges, period, |ranges|);
      if |s| >= period {
        WilderIs(s, period, |s|);
      }
    }
  }

  // -------------------------------------------------------------------------- RSI

  /** How far the price has moved altogether. */
  function Path(prices: seq<real>, from: nat, n: nat): real
    requires 1 <= from <= n <= |prices|
  {
    if n == from then 0.0 else Path(prices, from, n - 1) + Abs(prices[n - 1] - prices[n - 2])
  }

  /** The rises and the falls make up the path, and their difference is the change of the price. */
  lemma {:induction false} RisesAndFalls(prices: seq<real>, from: nat, n: nat)
    requires 1 <= from <= n <= |prices|
    ensures Rises(prices, from, n) + Falls(prices, from, n) == Path(prices, from, n)
    ensures Rises(prices, from, n) - Falls(prices, from, n) == prices[n - 1] - prices[from - 1]
  {
    if n > from {
      RisesAndFalls(prices, from, n - 1);
    }
  }
}

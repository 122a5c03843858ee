/**
 The indicators of `crates/market/src/indicators.rs` over exact reals: EMA, RSI,
 ATR and ADX. Each loop computes a recursive function, about which the bounds are
 proved. An indicator without enough candles is absent, and one whose divisor is
 zero has the value that the source gives it.
 */
module Indicators {
  import opened RealArith
  import opened Wrappers

  predicate Within(xs: seq<real>, lo: real, hi: real) {
    forall i | 0 <= i < |xs| :: lo <= xs[i] <= hi
  }

  // --------------------------------------------------------------- arithmetic

  /** The point a share `w` of the way from `x` to `y`. */
  function Toward(x: real, y: real, w: real): real { (y - x) * w + x }

  /** A step of Wilder smoothing. */
  function WilderStep(avg: real, x: real, p: real): real
    requires p != 0.0
  {
    (avg * (p - 1.0) + x) / p
  }

  lemma DistanceWithin(x: real, d: real, w: real, lo: real, hi: real)
    requires lo <= x <= hi && lo <= x + d <= hi && 0.0 <= w <= 1.0
    ensures lo <= Scaled(d, w) + x <= hi
  {
    PartOf(d, w);
    Between(x, d, Scaled(d, w), lo, hi);
  }

  function Scaled(d: real, w: real): real { d * w }

  lemma PartOf(d: real, w: real)
    requires 0.0 <= w <= 1.0
    ensures 0.0 <= Scaled(d, w) <= d || d <= Scaled(d, w) <= 0.0
  {
    if d >= 0.0 {
      PartUp(d, w);
    } else {
      PartDown(d, w);
    }
  }

  lemma Between(x: real, d: real, part: real, lo: real, hi: real)
    requires lo <= x <= hi && lo <= x + d <= hi
    requires 0.0 <= part <= d || d <= part <= 0.0
    ensures lo <= part + x <= hi
  {
  }

  lemma PartUp(d: real, w: real)
    requires d >= 0.0 && 0.0 <= w <= 1.0
    ensures 0.0 <= d * w <= d
  {
  }

  lemma PartDown(d: real, w: real)
    requires d <= 0.0 && 0.0 <= w <= 1.0
    ensures d <= d * w <= 0.0
  {
  }

  lemma TowardWithin(x: real, y: real, w: real, lo: real, hi: real)
    requires lo <= x <= hi && lo <= y <= hi && 0.0 <= w <= 1.0
    ensures lo <= Toward(x, y, w) <= hi
  {
    DistanceWithin(x, y - x, w, lo, hi);
    assert Scaled(y - x, w) == (y - x) * w;
  }

  lemma WilderWithin(x: real, y: real, p: real, lo: real, hi: real)
    requires lo <= x <= hi && lo <= y <= hi && p >= 1.0
    ensures lo <= WilderStep(x, y, p) <= hi
  {
    assert lo * p == lo * (p - 1.0) + lo && hi * p == hi * (p - 1.0) + hi;
    MulLeq(lo, x, p - 1.0);
    MulLeq(x, hi, p - 1.0);
    DivLeq(lo * p, x * (p - 1.0) + y, p);
    DivLeq(x * (p - 1.0) + y, hi * p, p);
    Cancel(lo, p);
    Cancel(hi, p);
  }

  lemma {:induction false} SumWithin(xs: seq<real>, lo: real, hi: real)
    requires Within(xs, lo, hi)
    ensures lo * |xs| as real <= Sum(xs) <= hi * |xs| as real
  {
    if xs != [] {
      var n := |xs| - 1;
      SumWithin(xs[..n], lo, hi);
      assert lo * |xs| as real == lo * n as real + lo && hi * |xs| as real == hi * n as real + hi;
    }
  }

  lemma MeanWithin(xs: seq<real>, lo: real, hi: real)
    requires xs != [] && Within(xs, lo, hi)
    ensures lo <= Sum(xs) / |xs| as real <= hi
  {
    var p := |xs| as real;
    SumWithin(xs, lo, hi);
    DivLeq(lo * p, Sum(xs), p);
    DivLeq(Sum(xs), hi * p, p);
    Cancel(lo, p);
    Cancel(hi, p);
  }

  // ------------------------------------------------------------- moving averages

  function Sma(prices: seq<real>, period: nat): Option<real>
    requires period >= 1
  {
    if |prices| < period then None else Some(Sum(prices[|prices| - period..]) / period as real)
  }

  function EmaMultiplier(period: nat): real { 2.0 / (period + 1) as real }

  /** The average after the first `n` prices. */
  function EmaOf(prices: seq<real>, period: nat, n: nat): real
    requires 1 <= period <= n <= |prices|
  {
    if n == period then Sum(prices[..period]) / period as real
    else
      Toward(EmaOf(prices, period, n - 1), prices[n - 1], EmaMultiplier(period))
  }

  method Ema(prices: seq<real>, period: nat) returns (r: Option<real>)
    requires period >= 1
    ensures r == if |prices| < period then None else Some(EmaOf(prices, period, |prices|))
    ensures r.Some? ==> forall lo, hi | Within(prices, lo, hi) :: lo <= r.value <= hi
  {
    if |prices| < period {
      return None;
    }
    assert prices[..period][0..] == prices[..period];
    var e := Sma(prices[..period], period).value;
    for n := period to |prices|
      invariant e == EmaOf(prices, period, n)
    {
      e := (prices[n] - e) * EmaMultiplier(period) + e;
    }
    forall lo, hi | Within(prices, lo, hi) ensures lo <= e <= hi {
      EmaWithin(prices, period, |prices|, lo, hi);
    }
    return Some(e);
  }

  /** The average stays between any bounds of the prices, so between the smallest and the largest. */
  lemma {:induction false} EmaWithin(prices: seq<real>, period: nat, n: nat, lo: real, hi: real)
    requires 1 <= period <= n <= |prices| && Within(prices, lo, hi)
    ensures lo <= EmaOf(prices, period, n) <= hi
  {
    if n == period {
      MeanWithin(prices[..period], lo, hi);
    } else {
      EmaWithin(prices, period, n - 1, lo, hi);
      MultiplierIsAWeight(period);
      TowardWithin(EmaOf(prices, period, n - 1), prices[n - 1], EmaMultiplier(period), lo, hi);
    }
  }

  lemma MultiplierIsAWeight(period: nat)
    requires period >= 1
    ensures 0.0 < EmaMultiplier(period) <= 1.0
  {
    DivLeq(2.0, (period + 1) as real, (period + 1) as real);
    Cancel(1.0, (period + 1) as real);
  }

  // --------------------------------------------------------------------- RSI

  /** The sum of the rises of the last changes, up to the change before price `n`. */
  function Rises(prices: seq<real>, from: nat, n: nat): (g: real)
    requires 1 <= from <= n <= |prices|
    ensures g >= 0.0
  {
    if n == from then 0.0
    else Rises(prices, from, n - 1) + if prices[n - 1] > prices[n - 2] then prices[n - 1] - prices[n - 2] else 0.0
  }

  function Falls(prices: seq<real>, from: nat, n: nat): (g: real)
    requires 1 <= from <= n <= |prices|
    ensures g >= 0.0
  {
    if n == from then 0.0
    else Falls(prices, from, n - 1) + if prices[n - 1] > prices[n - 2] then 0.0 else prices[n - 2] - prices[n - 1]
  }

  /** The share of the rises in all the movement, in percent. */
  function RisingShare(g: real, l: real): real
    requires g >= 0.0 && l >= 0.0
  {
    if l == 0.0 then 100.0 else 100.0 * g / (g + l)
  }

  /** The division by the number of changes cancels. */
  lemma RatioOfMeans(g: real, l: real, p: real)
    requires g >= 0.0 && l > 0.0 && p >= 1.0
    ensures l / p > 0.0 && g / p / (l / p) == g / l >= 0.0
  {
    var a, b := g / p, l / p;
    assert a * p == g && b * p == l;
    assert b > 0.0;
    DivLeq(0.0, g, l);
    var q := g / l;
    assert q * l == g;
    assert q * (b * p) == q * b * p;
    DivIs(q * b * p, p, q * b);
    DivIs(a, b, q) by {
      Cancel(q * b, p);
      Cancel(a, p);
    }
  }

  lemma ShareOfRatio(g: real, l: real)
    requires g >= 0.0 && l > 0.0
    ensures 1.0 + g / l > 0.0 && 100.0 - 100.0 / (1.0 + g / l) == RisingShare(g, l)
    ensures 0.0 <= RisingShare(g, l) <= 100.0
  {
    var q := g / l;
    assert q * l == g;
    DivLeq(0.0, g, l);
    var z := 1.0 + q;
    assert z * l == l + g;
    var inv := 100.0 / z;
    assert inv * z == 100.0;
    assert inv * (z * l) == inv * z * l;
    assert (100.0 - inv) * (g + l) == 100.0 * (g + l) - inv * (g + l);
    DivIs(100.0 * g, g + l, 100.0 - inv);
    DivLeq(0.0, 100.0 * g, g + l);
    DivLeq(100.0 * g, 100.0 * (g + l), g + l);
    Cancel(100.0, g + l);
  }

  method Rsi(prices: seq<real>, period: nat) returns (r: Option<real>)
    requires period >= 1
    ensures r.None? <==> |prices| < period + 1
    ensures r.Some? ==>
      var n := |prices|;
      var g, l := Rises(prices, n - period, n), Falls(prices, n - period, n);
      0.0 <= r.value <= 100.0 && r.value == RisingShare(g, l)
  {
    if |prices| < period + 1 {
      return None;
    }
    var from := |prices| - period;
    var gain, loss := 0.0, 0.0;
    for n := from to |prices|
      invariant gain == Rises(prices, from, n) && loss == Falls(prices, from, n)
    {
      var change := prices[n] - prices[n - 1];
      if change > 0.0 {
        gain := gain + change;
      } else {
        loss := loss + Abs(change);
      }
    }
    var avgGain, avgLoss := gain / period as real, loss / period as real;
    if loss != 0.0 {
      RatioOfMeans(gain, loss, period as real);
      ShareOfRatio(gain, loss);
    }
    if avgLoss == 0.0 {
      return Some(100.0);
    }
    var rs := avgGain / avgLoss;
    return Some(100.0 - 100.0 / (1.0 + rs));
  }

  // ---------------------------------------------------------------------- ATR

  /** The true range of candle `i`, with the change from the candle before. */
  function TrueRange(highs: seq<real>, lows: seq<real>, closes: seq<real>, i: nat): (tr: real)
    requires 1 <= i < |highs| && i < |lows| && i <= |closes|
    ensures tr >= 0.0
  {
    MaxR(MaxR(highs[i] - lows[i], Abs(highs[i] - closes[i - 1])), Abs(lows[i] - closes[i - 1]))
  }

  /** The Wilder average of the first `n` values. */
  function WilderOf(xs: seq<real>, period: nat, n: nat): real
    requires 1 <= period <= n <= |xs|
  {
    if n == period then Sum(xs[..period]) / period as real
    else WilderStep(WilderOf(xs, period, n - 1), xs[n - 1], period as real)
  }

  lemma WilderFirst(xs: seq<real>, period: nat, lo: real, hi: real)
    requires 1 <= period <= |xs| && Within(xs, lo, hi)
    ensures lo <= WilderOf(xs, period, period) <= hi
  {
    MeanWithin(xs[..period], lo, hi);
  }

  lemma {:induction false} WilderOfWithin(xs: seq<real>, period: nat, n: nat, lo: real, hi: real)
    requires 1 <= period <= n <= |xs| && Within(xs, lo, hi)
    ensures lo <= WilderOf(xs, period, n) <= hi
  {
    hide WilderStep;
    if n == period {
      WilderFirst(xs, period, lo, hi);
    } else {
      WilderOfWithin(xs, period, n - 1, lo, hi);
      WilderWithin(WilderOf(xs, period, n - 1), xs[n - 1], period as real, lo, hi);
    }
  }

  method WilderAverage(xs: seq<real>, period: nat) returns (avg: real)
    requires 1 <= period <= |xs|
    ensures avg == WilderOf(xs, period, |xs|)
    ensures forall lo, hi | Within(xs, lo, hi) :: lo <= avg <= hi
  {
    avg := Sum(xs[..period]) / period as real;
    for n := period to |xs|
      invariant avg == WilderOf(xs, period, n)
    {
      avg := (avg * (period as real - 1.0) + xs[n]) / period as real;
    }
    forall lo, hi | Within(xs, lo, hi) ensures lo <= avg <= hi {
      WilderOfWithin(xs, period, |xs|, lo, hi);
    }
  }

  function TrueRanges(highs: seq<real>, lows: seq<real>, closes: seq<real>): (trs: seq<real>)
    requires 1 <= |highs| <= |lows| && |highs| <= |closes| + 1
    ensures |trs| == |highs| - 1 && forall i | 0 <= i < |trs| :: trs[i] == TrueRange(highs, lows, closes, i + 1)
  {
    seq(|highs| - 1, i requires 0 <= i < |highs| - 1 => TrueRange(highs, lows, closes, i + 1))
  }

  method Atr(highs: seq<real>, lows: seq<real>, closes: seq<real>, period: nat) returns (r: Option<real>)
    requires period >= 1
    ensures r.Some? <==> |highs| == |lows| == |closes| && |highs| >= period + 1
    ensures r.Some? ==>
      var trs := TrueRanges(highs, lows, closes);
      && r.value == WilderOf(trs, period, |trs|)
      && forall lo, hi | Within(trs, lo, hi) :: lo <= r.value <= hi
  {
    if |highs| != |lows| || |lows| != |closes| || |highs| < period + 1 {
      return None;
    }
    var trs: seq<real> := [];
    for i := 1 to |highs|
      invariant |trs| == i - 1 && forall k | 0 <= k < |trs| :: trs[k] == TrueRange(highs, lows, closes, k + 1)
    {
      var hl := highs[i] - lows[i];
      var hc := Abs(highs[i] - closes[i - 1]);
      var lc := Abs(lows[i] - closes[i - 1]);
      trs := trs + [MaxR(MaxR(hl, hc), lc)];
    }
    assert trs == TrueRanges(highs, lows, closes);
    var avg := WilderAverage(trs, period);
    return Some(avg);
  }

  // ---------------------------------------------------------------------- ADX

  function PlusDm(highs: seq<real>, lows: seq<real>, i: nat): (d: real)
    requires 1 <= i < |highs| && i < |lows|
    ensures d >= 0.0
  {
    var up, down := highs[i] - highs[i - 1], lows[i - 1] - lows[i];
    if up > down && up > 0.0 then up else 0.0
  }

  function MinusDm(highs: seq<real>, lows: seq<real>, i: nat): (d: real)
    requires 1 <= i < |highs| && i < |lows|
    ensures d >= 0.0
  {
    var up, down := highs[i] - highs[i - 1], lows[i - 1] - lows[i];
    if down > up && down > 0.0 then down else 0.0
  }

  function PlusDms(highs: seq<real>, lows: seq<real>): (s: seq<real>)
    requires 1 <= |highs| <= |lows|
    ensures |s| == |highs| - 1 && NonNegative(s)
    ensures forall i | 0 <= i < |s| :: s[i] == PlusDm(highs, lows, i + 1)
  {
    seq(|highs| - 1, i requires 0 <= i < |highs| - 1 => PlusDm(highs, lows, i + 1))
  }

  function MinusDms(highs: seq<real>, lows: seq<real>): (s: seq<real>)
    requires 1 <= |highs| <= |lows|
    ensures |s| == |highs| - 1 && NonNegative(s)
    ensures forall i | 0 <= i < |s| :: s[i] == MinusDm(highs, lows, i + 1)
  {
    seq(|highs| - 1, i requires 0 <= i < |highs| - 1 => MinusDm(highs, lows, i + 1))
  }

  predicate NonNegative(xs: seq<real>) { forall i | 0 <= i < |xs| :: xs[i] >= 0.0 }

  /** The Wilder sum of the first `n` values. */
  function SmoothedOf(xs: seq<real>, period: nat, n: nat): real
    requires 1 <= period <= n <= |xs|
  {
    if n == period then Sum(xs[..period])
    else
      var s := SmoothedOf(xs, period, n - 1);
      s - s / period as real + xs[n - 1]
  }

  lemma {:induction false} SumIsNotNegative(xs: seq<real>)
    requires NonNegative(xs)
    ensures Sum(xs) >= 0.0
  {
    if xs != [] {
      SumIsNotNegative(xs[..|xs| - 1]);
    }
  }

  lemma ShareIsLess(s: real, p: real)
    requires s >= 0.0 && p >= 1.0
    ensures 0.0 <= s / p <= s
  {
    DivLeq(0.0, s, p);
    assert s / p * p == s;
    MulLeq(1.0, p, s / p);
  }

  lemma {:induction false} SmoothedIsNotNegative(xs: seq<real>, period: nat, n: nat)
    requires 1 <= period <= n <= |xs| && NonNegative(xs)
    ensures SmoothedOf(xs, period, n) >= 0.0
  {
    if n == period {
      SumIsNotNegative(xs[..period]);
    } else {
      SmoothedIsNotNegative(xs, period, n - 1);
      ShareIsLess(SmoothedOf(xs, period, n - 1), period as real);
    }
  }

  /** The directional index of smoothed movements: how far apart they are, in percent of their sum. */
  function Dx(plus: real, minus: real): real {
    if plus + minus == 0.0 then 0.0 else 100.0 * Abs(plus - minus) / (plus + minus)
  }

  lemma DxWithin(plus: real, minus: real)
    requires plus >= 0.0 && minus >= 0.0
    ensures 0.0 <= Dx(plus, minus) <= 100.0
  {
    var sum := plus + minus;
    if sum != 0.0 {
      DivLeq(0.0, 100.0 * Abs(plus - minus), sum);
      DivLeq(100.0 * Abs(plus - minus), 100.0 * sum, sum);
      Cancel(100.0, sum);
    }
  }

  /** Both movements are divided by the same true range, so it cancels. */
  lemma RangeCancels(plus: real, minus: real, range: real)
    requires plus >= 0.0 && minus >= 0.0 && range > 0.0
    ensures var p, m := plus / range * 100.0, minus / range * 100.0;
      && (p + m == 0.0 <==> plus + minus == 0.0)
      && (p + m != 0.0 ==> Abs(p - m) / (p + m) * 100.0 == Dx(plus, minus))
  {
    var k := 100.0 / range;
    assert k * range == 100.0;
    assert k > 0.0;
    ScaleBy(plus, range, k);
    ScaleBy(minus, range, k);
    RatioOfScaled(k, plus, minus, plus / range * 100.0, minus / range * 100.0);
  }

  lemma RatioOfScaled(k: real, plus: real, minus: real, p: real, m: real)
    requires k > 0.0 && plus >= 0.0 && minus >= 0.0 && p == k * plus && m == k * minus
    ensures p + m == 0.0 <==> plus + minus == 0.0
    ensures p + m != 0.0 ==> Abs(p - m) / (p + m) * 100.0 == Dx(plus, minus)
  {
    assert p + m == k * (plus + minus) && p - m == k * (plus - minus);
    if plus + minus != 0.0 {
      ScaledAbs(k, plus - minus);
      ScaledRatio(k, Abs(plus - minus), plus + minus);
    }
  }

  lemma ScaleBy(x: real, range: real, k: real)
    requires range > 0.0 && k * range == 100.0
    ensures x / range * 100.0 == k * x
  {
    var q := x / range;
    assert q * range == x;
    assert q * (k * range) == k * (q * range);
  }

  lemma ScaledAbs(k: real, x: real)
    requires k > 0.0
    ensures Abs(k * x) == k * Abs(x)
  {
    if x >= 0.0 {
      MulLeq(0.0, x, k);
    } else {
      MulLess(x, 0.0, k);
    }
  }

  lemma ScaledRatio(k: real, x: real, y: real)
    requires k > 0.0 && y > 0.0
    ensures k * y > 0.0 && k * x / (k * y) * 100.0 == 100.0 * x / y
  {
    MulLess(0.0, y, k);
    var q := x / y;
    assert q * y == x;
    assert q * (k * y) == k * (q * y);
    DivIs(k * x, k * y, q);
    assert q * 100.0 * y == 100.0 * (q * y);
    DivIs(100.0 * x, y, q * 100.0);
  }

  /** The directional indices of the candles from `period` on, leaving out those without any range. */
  function DxsOf(plus: seq<real>, minus: seq<real>, ranges: seq<real>, period: nat, n: nat): (s: seq<real>)
    requires 1 <= period <= n <= |plus| && n <= |minus| && n <= |ranges|
    ensures |s| <= n - period
  {
    if n == period then []
    else
      DxsOf(plus, minus, ranges, period, n - 1)
      + if SmoothedOf(ranges, period, n) == 0.0 then []
        else [Dx(SmoothedOf(plus, period, n), SmoothedOf(minus, period, n))]
  }

  lemma {:induction false} DxsWithin(plus: seq<real>, minus: seq<real>, ranges: seq<real>, period: nat, n: nat)
    requires 1 <= period <= n <= |plus| && n <= |minus| && n <= |ranges|
    requires NonNegative(plus) && NonNegative(minus)
    ensures Within(DxsOf(plus, minus, ranges, period, n), 0.0, 100.0)
  {
    hide Dx;
    if n > period {
      DxsWithin(plus, minus, ranges, period, n - 1);
      SmoothedIsNotNegative(plus, period, n);
      SmoothedIsNotNegative(minus, period, n);
      DxWithin(SmoothedOf(plus, period, n), SmoothedOf(minus, period, n));
    }
  }

  /** The index of a market: None when there are too few candles or too few of them have a range. */
  function AdxOf(highs: seq<real>, lows: seq<real>, closes: seq<real>, period: nat): Option<real>
    requires period >= 1 && |lows| >= |highs| && |closes| + 1 >= |highs|
  {
    if |highs| < 2 * period + 1 || |lows| < 2 * period + 1 || |closes| < 2 * period + 1 then None
    else
      var ranges := TrueRanges(highs, lows, closes);
      var dxs := DxsOf(PlusDms(highs, lows), MinusDms(highs, lows), ranges, period, |ranges|);
      if |dxs| < period then None else Some(WilderOf(dxs, period, |dxs|))
  }

  method Adx(highs: seq<real>, lows: seq<real>, closes: seq<real>, period: nat) returns (r: Option<real>)
    requires period >= 1 && |lows| >= |highs| && |closes| + 1 >= |highs|
    ensures r == AdxOf(highs, lows, closes, period)
    ensures r.Some? ==> 0.0 <= r.value <= 100.0
  {
    if |highs| < 2 * period + 1 || |lows| < 2 * period + 1 || |closes| < 2 * period + 1 {
      return None;
    }
    var plus, minus, ranges := Movements(highs, lows, closes);
    var dxs := SmoothedIndices(plus, minus, ranges, period);
    DxsWithin(plus, minus, ranges, period, |ranges|);
    if |dxs| < period {
      return None;
    }
    var adx := WilderAverage(dxs, period);
    return Some(adx);
  }

  method Movements(highs: seq<real>, lows: seq<real>, closes: seq<real>)
    returns (plus: seq<real>, minus: seq<real>, ranges: seq<real>)
    requires 1 <= |highs| <= |lows| && |highs| <= |closes| + 1
    ensures plus == PlusDms(highs, lows) && minus == MinusDms(highs, lows) && ranges == TrueRanges(highs, lows, closes)
  {
    plus, minus, ranges := [], [], [];
    for i := 1 to |highs|
      invariant plus == PlusDms(highs, lows)[..i - 1] && minus == MinusDms(highs, lows)[..i - 1]
      invariant ranges == TrueRanges(highs, lows, closes)[..i - 1]
    {
      var up := highs[i] - highs[i - 1];
      var down := lows[i - 1] - lows[i];
      var plusDm := if up > down && up > 0.0 then up else 0.0;
      var minusDm := if down > up && down > 0.0 then down else 0.0;
      var hl := highs[i] - lows[i];
      var hc := Abs(highs[i] - closes[i - 1]);
      var lc := Abs(lows[i] - closes[i - 1]);
      plus, minus, ranges := plus + [plusDm], minus + [minusDm], ranges + [MaxR(MaxR(hl, hc), lc)];
    }
  }

  method SmoothedIndices(plus: seq<real>, minus: seq<real>, ranges: seq<real>, period: nat) returns (dxs: seq<real>)
    requires 1 <= period <= |plus| == |minus| == |ranges|
    requires NonNegative(plus) && NonNegative(minus) && NonNegative(ranges)
    ensures dxs == DxsOf(plus, minus, ranges, period, |ranges|)
  {
    hide Dx, Sum;
    var p := period as real;
    var smoothPlus, smoothMinus, smoothRange := Sum(plus[..period]), Sum(minus[..period]), Sum(ranges[..period]);
    dxs := [];
    for i := period to |ranges|
      invariant smoothPlus == SmoothedOf(plus, period, i) && smoothMinus == SmoothedOf(minus, period, i)
      invariant smoothRange == SmoothedOf(ranges, period, i)
      invariant dxs == DxsOf(plus, minus, ranges, period, i)
    {
      smoothPlus := smoothPlus - smoothPlus / p + plus[i];
      smoothMinus := smoothMinus - smoothMinus / p + minus[i];
      smoothRange := smoothRange - smoothRange / p + ranges[i];
      if smoothRange == 0.0 {
        continue;
      }
      SmoothedIsNotNegative(plus, period, i + 1);
      SmoothedIsNotNegative(minus, period, i + 1);
      SmoothedIsNotNegative(ranges, period, i + 1);
      RangeCancels(smoothPlus, smoothMinus, smoothRange);
      var plusDi := smoothPlus / smoothRange * 100.0;
      var minusDi := smoothMinus / smoothRange * 100.0;
      var diSum := plusDi + minusDi;
      if diSum == 0.0 {
        NoMovement(smoothPlus, smoothMinus);
        dxs := dxs + [0.0];
      } else {
        var dx := Abs(plusDi - minusDi) / diSum * 100.0;
        dxs := dxs + [dx];
      }
    }
  }

  lemma NoMovement(plus: real, minus: real)
    requires plus + minus == 0.0
    ensures Dx(plus, minus) == 0.0
  {
  }

  function Mirrored(xs: seq<real>): (s: seq<real>)
    ensures |s| == |xs| && forall i | 0 <= i < |s| :: s[i] == -xs[i]
  {
    seq(|xs|, i requires 0 <= i < |xs| => -xs[i])
  }

  lemma DxIsSymmetric(plus: real, minus: real)
    ensures Dx(plus, minus) == Dx(minus, plus)
  {
  }

  lemma {:induction false} DxsAreSymmetric(plus: seq<real>, minus: seq<real>, ranges: seq<real>, period: nat, n: nat)
    requires 1 <= period <= n <= |plus| && n <= |minus| && n <= |ranges|
    ensures DxsOf(plus, minus, ranges, period, n) == DxsOf(minus, plus, ranges, period, n)
  {
    hide Dx;
    if n > period {
      DxsAreSymmetric(plus, minus, ranges, period, n - 1);
      DxIsSymmetric(SmoothedOf(plus, period, n), SmoothedOf(minus, period, n));
    }
  }

  lemma MirroredMovements(highs: seq<real>, lows: seq<real>, closes: seq<real>)
    requires 1 <= |highs| == |lows| == |closes|
    ensures PlusDms(Mirrored(lows), Mirrored(highs)) == MinusDms(highs, lows)
    ensures MinusDms(Mirrored(lows), Mirrored(highs)) == PlusDms(highs, lows)
    ensures TrueRanges(Mirrored(lows), Mirrored(highs), Mirrored(closes)) == TrueRanges(highs, lows, closes)
  {
  }

  /** The index measures the strength of a trend and not its direction: turned upside down, a market has the same one. */
  lemma AdxIgnoresTheDirection(highs: seq<real>, lows: seq<real>, closes: seq<real>, period: nat)
    requires period >= 1 && |highs| == |lows| == |closes|
    ensures AdxOf(Mirrored(lows), Mirrored(highs), Mirrored(closes), period) == AdxOf(highs, lows, closes, period)
  {
    hide PlusDms, MinusDms, TrueRanges, DxsOf, WilderOf;
    if |highs| >= 2 * period + 1 {
      var ranges := TrueRanges(highs, lows, closes);
      MirroredMovements(highs, lows, closes);
      DxsAreSymmetric(PlusDms(highs, lows), MinusDms(highs, lows), ranges, period, |ranges|);
    }
  }
}

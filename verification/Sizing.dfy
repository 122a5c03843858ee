/**
 How much to trade: the sizer of `crates/executor/src/position_sizer.rs`, the
 margin figures of `crates/core/src/margin.rs` and the allocation of
 `crates/strategy/src/fx_new.rs`. Decimals are exact reals.
 */
module Sizing {
  import opened RealArith
  import opened Wrappers

  datatype Direction = Long | Short

  // ------------------------------------------------------------------- margin

  /** Rounds toward zero to a whole number. */
  function Truncate(x: real): real {
    if x >= 0.0 then x.Floor as real else -((-x).Floor as real)
  }

  function MarginOf(entryPrice: real, quantity: real, leverage: real): real
    requires leverage != 0.0
  {
    Truncate(entryPrice * quantity / leverage)
  }

  datatype OpenPosition = OpenPosition(
    direction: Direction, entryPrice: real, currentPrice: real, quantity: real, leverage: real)
  {
    function UnrealizedPnl(): real {
      (if direction.Long? then currentPrice - entryPrice else entryPrice - currentPrice) * quantity
    }

    function RequiredMargin(): real
      requires leverage != 0.0
    {
      MarginOf(entryPrice, quantity, leverage)
    }
  }

  predicate Leveraged(positions: seq<OpenPosition>) {
    forall i | 0 <= i < |positions| :: positions[i].leverage != 0.0
  }

  function TotalRequired(positions: seq<OpenPosition>): real
    requires Leveraged(positions)
  {
    if positions == [] then 0.0
    else TotalRequired(positions[..|positions| - 1]) + positions[|positions| - 1].RequiredMargin()
  }

  function TotalUnrealized(positions: seq<OpenPosition>): real {
    if positions == [] then 0.0
    else TotalUnrealized(positions[..|positions| - 1]) + positions[|positions| - 1].UnrealizedPnl()
  }

  function MaintenanceRatio(currentBalance: real, positions: seq<OpenPosition>): Option<real>
    requires Leveraged(positions)
  {
    var required := TotalRequired(positions);
    if required == 0.0 then None
    else Some((currentBalance + required + TotalUnrealized(positions)) / required)
  }

  predicate IsBelowLiquidationThreshold(ratio: real, threshold: real) {
    ratio < threshold
  }

  // ------------------------------------------------------------------- sizing

  datatype Request = Request(
    balance: real, entryPrice: real, leverage: real, allocationPct: real, stopLossPct: real, liquidationLevel: real)
  {
    predicate Usable() {
      && balance > 0.0 && entryPrice > 0.0 && leverage > 0.0
      && 0.0 < allocationPct <= 1.0
      && stopLossPct > 0.0 && liquidationLevel > 0.0
    }
  }

  datatype PositionSizer = PositionSizer(
    minOrderSizes: map<string, real>, marginBuffer: real, priceUnits: map<string, real>)
  {
    /** A configured buffer is not negative (`RiskConfig::validate`). */
    predicate Valid() { marginBuffer >= 0.0 }

    function MinSize(pair: string): real {
      if pair in minOrderSizes then minOrderSizes[pair] else 0.0
    }

    function RiskAllocation(r: Request): real
      requires Valid() && r.Usable()
    {
      LevelTimesLeverage(this, r);
      var maxAlloc := 1.0 / (r.liquidationLevel + marginBuffer + r.leverage * r.stopLossPct);
      if maxAlloc <= r.allocationPct then maxAlloc else r.allocationPct
    }

    function RawQuantity(r: Request): real
      requires Valid() && r.Usable()
    {
      r.balance * r.leverage * RiskAllocation(r) / r.entryPrice
    }

    function CalculateQuantity(pair: string, r: Request): Option<real>
      requires Valid()
    {
      if !r.Usable() then None
      else
        var raw, minSize := RawQuantity(r), MinSize(pair);
        if minSize > 0.0 then
          var truncated := Steps((raw / minSize).Floor, minSize);
          if truncated < minSize then None else Some(truncated)
        else if raw > 0.0 then Some(raw)
        else None
    }

    function RoundTriggerPrice(pair: string, price: real, direction: Direction): real {
      var unit := if pair in priceUnits then priceUnits[pair] else 0.0;
      if unit <= 0.0 then price
      else
        var steps := price / unit;
        Steps(if direction.Long? then Ceiling(steps) else steps.Floor, unit)
    }
  }

  function Ceiling(x: real): int { -((-x).Floor) }

  function Steps(n: int, unit: real): real { n as real * unit }

  lemma LevelTimesLeverage(sizer: PositionSizer, r: Request)
    requires sizer.Valid() && r.Usable()
    ensures r.liquidationLevel + sizer.marginBuffer + r.leverage * r.stopLossPct > 0.0
  {
  }

  // ------------------------------------------------------- what the quantity is

  ghost predicate IsMultiple(x: real, unit: real) {
    exists n: int :: x == Steps(n, unit)
  }

  lemma FloorMultiple(x: real, unit: real)
    requires unit > 0.0
    ensures var n := (x / unit).Floor; Steps(n, unit) <= x < Steps(n + 1, unit) == Steps(n, unit) + unit
  {
    var q := x / unit;
    assert q * unit == x;
    FloorSteps(q, unit, x);
  }

  lemma FloorSteps(q: real, unit: real, x: real)
    requires unit > 0.0 && q * unit == x
    ensures var n := q.Floor; Steps(n, unit) <= x < Steps(n + 1, unit) == Steps(n, unit) + unit
  {
    var f := q.Floor as real;
    MulLeq(f, q, unit);
    MulLess(q, f + 1.0, unit);
    assert (f + 1.0) * unit == f * unit + unit;
    assert (q.Floor + 1) as real == f + 1.0;
  }

  lemma RawIsPositive(sizer: PositionSizer, r: Request)
    requires sizer.Valid() && r.Usable()
    ensures 0.0 < sizer.RiskAllocation(r) <= r.allocationPct
    ensures sizer.RawQuantity(r) > 0.0
  {
    LevelTimesLeverage(sizer, r);
    assert r.balance * r.leverage > 0.0;
    assert r.balance * r.leverage * sizer.RiskAllocation(r) > 0.0;
  }

  lemma StepsInOrder(m: int, n: int, unit: real)
    requires unit > 0.0
    ensures m <= n <==> Steps(m, unit) <= Steps(n, unit)
  {
    if m <= n {
      MulLeq(m as real, n as real, unit);
    } else {
      MulLess(n as real, m as real, unit);
    }
  }

  /** The multiple below `x` is the largest one, and it is positive exactly when one unit fits. */
  lemma LargestMultiple(x: real, unit: real)
    requires unit > 0.0
    ensures var m := Steps((x / unit).Floor, unit);
      && m <= x && (m < unit <==> x < unit)
      && forall y | IsMultiple(y, unit) && y <= x :: y <= m
  {
    var n := (x / unit).Floor;
    FloorMultiple(x, unit);
    assert Steps(1, unit) == unit;
    hide Steps;
    StepsInOrder(1, n, unit);
    StepsInOrder(n + 1, 1, unit);
    forall y | IsMultiple(y, unit) && y <= x ensures y <= Steps(n, unit) {
      var k: int :| y == Steps(k, unit);
      StepsInOrder(n + 1, k, unit);
      StepsInOrder(k, n, unit);
    }
  }

  lemma QuantityOfRaw(sizer: PositionSizer, pair: string, r: Request)
    requires sizer.Valid() && r.Usable()
    ensures var unit, q := sizer.MinSize(pair), sizer.CalculateQuantity(pair, r);
      && (q.None? <==> sizer.RawQuantity(r) < unit)
      && (q.Some? ==> 0.0 < q.value <= sizer.RawQuantity(r))
      && (q.Some? && unit <= 0.0 ==> q.value == sizer.RawQuantity(r))
      && (q.Some? && unit > 0.0 ==>
            IsMultiple(q.value, unit)
            && forall x | IsMultiple(x, unit) && x <= sizer.RawQuantity(r) :: x <= q.value)
  {
    RawIsPositive(sizer, r);
    if sizer.MinSize(pair) > 0.0 {
      LargestMultiple(sizer.RawQuantity(r), sizer.MinSize(pair));
    }
  }

  /**
   What a quantity `x` may take of the balance: its value at leverage is within the
   allocation, and its margin at the level with the buffer and its loss at the stop
   fit into the balance together.
   */
  predicate Affordable(r: Request, buffer: real, x: real)
    requires r.leverage != 0.0
  {
    var value := r.entryPrice * x;
    && value <= r.balance * r.leverage * r.allocationPct
    && (r.liquidationLevel + buffer) * (value / r.leverage) + r.stopLossPct * value <= r.balance
  }

  lemma ReserveOfValue(value: real, lev: real, y: real, s: real, b: real)
    requires lev > 0.0 && y > 0.0 && s > 0.0
    ensures y + lev * s > 0.0
    ensures y * (value / lev) + s * value <= b <==> value <= b * lev * (1.0 / (y + lev * s))
  {
    var m, z := value / lev, y + lev * s;
    var cap := 1.0 / z;
    assert m * lev == value && cap * z == 1.0;
    assert y * m + s * value == m * z by {
      Distribute(m, y, lev, s);
    }
    CapOfMargin(m, lev, z, b, cap);
  }

  lemma CapOfMargin(m: real, lev: real, z: real, b: real, cap: real)
    requires lev > 0.0 && z > 0.0 && cap * z == 1.0
    ensures m * z <= b <==> m * lev <= b * lev * cap
  {
    assert b * cap * z == b * (cap * z);
    assert b * cap * lev == b * lev * cap;
    LeqTimes(m, b * cap, z);
    LeqTimes(m, b * cap, lev);
  }

  lemma LeqTimes(a: real, b: real, c: real)
    requires c > 0.0
    ensures a <= b <==> a * c <= b * c
  {
    if a <= b {
      MulLeq(a, b, c);
    } else {
      MulLess(b, a, c);
    }
  }

  lemma ValueWithinTheCap(sizer: PositionSizer, r: Request, value: real)
    requires sizer.Valid() && r.Usable()
    ensures value <= r.balance * r.leverage * sizer.RiskAllocation(r) <==>
      && value <= r.balance * r.leverage * r.allocationPct
      && (r.liquidationLevel + sizer.marginBuffer) * (value / r.leverage) + r.stopLossPct * value <= r.balance
  {
    var y := r.liquidationLevel + sizer.marginBuffer;
    ReserveOfValue(value, r.leverage, y, r.stopLossPct, r.balance);
    Positive(r.balance, r.leverage);
    SmallerOf(r.balance * r.leverage, 1.0 / (y + r.leverage * r.stopLossPct), r.allocationPct, value);
  }

  lemma Positive(a: real, b: real)
    requires a > 0.0 && b > 0.0
    ensures a * b > 0.0
  {
  }

  lemma AffordableUpToRaw(sizer: PositionSizer, r: Request, x: real)
    requires sizer.Valid() && r.Usable()
    ensures Affordable(r, sizer.marginBuffer, x) <==> x <= sizer.RawQuantity(r)
  {
    hide PositionSizer.RawQuantity, PositionSizer.RiskAllocation;
    ValueWithinTheCap(sizer, r, r.entryPrice * x);
    RawIsTheCap(sizer, r);
    LeqTimesLeft(x, sizer.RawQuantity(r), r.entryPrice);
  }

  lemma LeqTimesLeft(a: real, b: real, c: real)
    requires c > 0.0
    ensures a <= b <==> c * a <= c * b
  {
    LeqTimes(a, b, c);
  }

  lemma SmallerOf(c: real, a: real, b: real, value: real)
    requires c > 0.0
    ensures value <= c * (if a <= b then a else b) <==> value <= c * a && value <= c * b
  {
    if a <= b {
      MulLeq(a, b, c);
    } else {
      MulLeq(b, a, c);
    }
  }

  /**
   The quantity is the largest one that the balance affords, among the multiples of
   the minimum size if there is one. There is none exactly when the request is not
   usable or the balance does not afford the minimum size.
   */
  lemma QuantityIsTheLargest(sizer: PositionSizer, pair: string, r: Request)
    requires sizer.Valid()
    ensures var q := sizer.CalculateQuantity(pair, r);
      var unit := if pair in sizer.minOrderSizes then sizer.minOrderSizes[pair] else 0.0;
      if !(r.balance > 0.0 && r.entryPrice > 0.0 && r.leverage > 0.0 && 0.0 < r.allocationPct <= 1.0
           && r.stopLossPct > 0.0 && r.liquidationLevel > 0.0) then q.None?
      else
        && (q.None? <==> unit > 0.0 && !Affordable(r, sizer.marginBuffer, unit))
        && (q.Some? ==>
              && 0.0 < q.value && Affordable(r, sizer.marginBuffer, q.value)
              && (unit > 0.0 ==> IsMultiple(q.value, unit))
              && forall x | Affordable(r, sizer.marginBuffer, x) && (unit > 0.0 ==> IsMultiple(x, unit)) :: x <= q.value)
  {
    hide PositionSizer.RawQuantity, PositionSizer.RiskAllocation, Affordable, Steps;
    if r.Usable() {
      var unit := if pair in sizer.minOrderSizes then sizer.minOrderSizes[pair] else 0.0;
      RawIsPositive(sizer, r);
      QuantityOfRaw(sizer, pair, r);
      AffordableUpToRaw(sizer, r, unit);
      var q := sizer.CalculateQuantity(pair, r);
      hide PositionSizer.CalculateQuantity;
      if q.Some? {
        AffordableUpToRaw(sizer, r, q.value);
      }
      forall x | Affordable(r, sizer.marginBuffer, x) ensures x <= sizer.RawQuantity(r) {
        AffordableUpToRaw(sizer, r, x);
      }
    }
  }

  // --------------------------------------------------------- stops and triggers

  function StopLoss(direction: Direction, fill: real, stopLossPct: real): real {
    if direction.Long? then fill * (1.0 - stopLossPct) else fill * (1.0 + stopLossPct)
  }

  /** `price` is on the entry's side of `stop`, or at it. */
  predicate NotBeyond(direction: Direction, price: real, stop: real) {
    if direction.Long? then price >= stop else price <= stop
  }

  /** The trigger price is the price of the next price step towards the entry. */
  lemma TriggerIsNotBeyondTheStop(sizer: PositionSizer, pair: string, stop: real, direction: Direction)
    ensures var trigger := sizer.RoundTriggerPrice(pair, stop, direction);
      var unit := if pair in sizer.priceUnits then sizer.priceUnits[pair] else 0.0;
      && NotBeyond(direction, trigger, stop)
      && if unit <= 0.0 then trigger == stop
         else
           && IsMultiple(trigger, unit)
           && forall x | IsMultiple(x, unit) && NotBeyond(direction, x, stop) :: NotBeyond(direction, x, trigger)
  {
    var unit := if pair in sizer.priceUnits then sizer.priceUnits[pair] else 0.0;
    if unit > 0.0 {
      if direction.Short? {
        LargestMultiple(stop, unit);
      } else {
        SmallestMultiple(stop, unit);
      }
    }
  }

  lemma Negated(n: int, x: real, unit: real)
    requires unit > 0.0
    ensures Steps(-n, unit) == -Steps(n, unit) && (-x) / unit == -(x / unit)
  {
  }

  lemma SmallestMultiple(x: real, unit: real)
    requires unit > 0.0
    ensures var m := Steps(Ceiling(x / unit), unit);
      m >= x && forall y | IsMultiple(y, unit) && y >= x :: y >= m
  {
    hide Steps;
    Negated((-(x / unit)).Floor, x, unit);
    LargestMultiple(-x, unit);
    forall y | IsMultiple(y, unit) && y >= x ensures y >= Steps(Ceiling(x / unit), unit) {
      var k: int :| y == Steps(k, unit);
      Negated(k, x, unit);
      assert IsMultiple(-y, unit);
    }
  }

  // ------------------------------------------- no liquidation before the stop

  /** What a position may use up at its stop: the margin ratio it must keep, and its loss. */
  lemma MarginAtStop(b: real, x: real, lev: real, s: real, y: real, risk: real)
    requires b > 0.0 && x > 0.0 && lev > 0.0 && s > 0.0 && y > 0.0
    requires 0.0 < risk && risk * (y + lev * s) <= 1.0
    requires x <= b * lev * risk
    ensures y * (x / lev) + s * x <= b
  {
    var m := x / lev;
    assert m * lev == x;
    MulLeq(x / lev, b * lev * risk / lev, 1.0) by {
      DivLeq(x, b * lev * risk, lev);
    }
    CancelFactor(b, risk, lev);
    assert m <= b * risk;
    MulLeq(m, b * risk, y + lev * s);
    assert m * (y + lev * s) == y * m + s * x by {
      Distribute(m, y, lev, s);
    }
    MulLeq(risk * (y + lev * s), 1.0, b);
    Reassociate(b, risk, y + lev * s);
  }

  lemma CancelFactor(b: real, risk: real, lev: real)
    requires lev > 0.0
    ensures b * lev * risk / lev == b * risk
  {
    assert b * lev * risk == (b * risk) * lev;
  }

  lemma Distribute(m: real, y: real, lev: real, s: real)
    ensures m * (y + lev * s) == y * m + s * (m * lev)
  {
    assert m * (y + lev * s) == m * y + m * (lev * s);
    assert m * (lev * s) == s * (m * lev);
  }

  lemma Reassociate(b: real, r: real, z: real)
    ensures b * r * z == r * z * b
  {
  }

  /** Each position is at a price that is not beyond its stop, `stopPct` away from its entry. */
  predicate BeforeStop(p: OpenPosition, stopPct: real) {
    NotBeyond(p.direction, p.currentPrice, StopLoss(p.direction, p.entryPrice, stopPct))
  }

  lemma LossBeforeStop(p: OpenPosition, stopPct: real)
    requires p.quantity > 0.0 && BeforeStop(p, stopPct)
    ensures p.UnrealizedPnl() >= -(stopPct * (p.entryPrice * p.quantity))
  {
    var diff := if p.direction.Long? then p.currentPrice - p.entryPrice else p.entryPrice - p.currentPrice;
    assert diff >= -(stopPct * p.entryPrice) by {
      assert p.entryPrice * (1.0 - stopPct) == p.entryPrice - stopPct * p.entryPrice;
      assert p.entryPrice * (1.0 + stopPct) == p.entryPrice + stopPct * p.entryPrice;
    }
    MulLeq(-(stopPct * p.entryPrice), diff, p.quantity);
    assert -(stopPct * p.entryPrice) * p.quantity == -(stopPct * (p.entryPrice * p.quantity));
  }

  /** `n` is `x` without its fraction. */
  predicate IsWithoutFraction(x: real, n: int) {
    if x >= 0.0 then n as real <= x < n as real + 1.0 else n as real - 1.0 < x <= n as real
  }

  ghost predicate IsWholePart(m: real, x: real) {
    exists n: int :: IsWithoutFraction(x, n) && m == n as real
  }

  lemma TruncateIsTheWholePart(x: real)
    ensures IsWholePart(Truncate(x), x)
  {
    var n := if x >= 0.0 then x.Floor else -((-x).Floor);
    assert IsWithoutFraction(x, n);
  }

  /** The required margin is the whole part of the exact one. */
  lemma TruncatedMargin(p: OpenPosition)
    requires p.entryPrice > 0.0 && p.quantity > 0.0 && p.leverage > 0.0
    ensures 0.0 <= p.RequiredMargin() <= p.entryPrice * p.quantity / p.leverage
    ensures IsWholePart(p.RequiredMargin(), p.entryPrice * p.quantity / p.leverage)
  {
    MarginIsTheWholePart(p.entryPrice, p.quantity, p.leverage);
    hide MarginOf, IsWholePart;
  }

  lemma MarginIsTheWholePart(entryPrice: real, quantity: real, leverage: real)
    requires entryPrice > 0.0 && quantity > 0.0 && leverage > 0.0
    ensures 0.0 <= MarginOf(entryPrice, quantity, leverage) <= entryPrice * quantity / leverage
    ensures IsWholePart(MarginOf(entryPrice, quantity, leverage), entryPrice * quantity / leverage)
  {
    hide Truncate, IsWholePart;
    var exact := entryPrice * quantity / leverage;
    Positive(entryPrice, quantity);
    PositiveShare(entryPrice * quantity, leverage);
    TruncateIsTheWholePart(exact);
    WholePartWithin(Truncate(exact), exact);
  }

  lemma PositiveShare(x: real, y: real)
    requires x > 0.0 && y > 0.0
    ensures x / y >= 0.0
  {
    DivLeq(0.0, x, y);
  }

  lemma WholePartWithin(m: real, x: real)
    requires x >= 0.0 && IsWholePart(m, x)
    ensures 0.0 <= m <= x
  {
  }

  /** The unrealized result is nothing at the entry, and follows the price in the direction of the position. */
  lemma ResultFollowsThePrice(p: OpenPosition, price: real)
    ensures p.(currentPrice := p.entryPrice).UnrealizedPnl() == 0.0
    ensures p.(currentPrice := price).UnrealizedPnl() - p.UnrealizedPnl()
         == (if p.direction.Long? then 1.0 else -1.0) * (price - p.currentPrice) * p.quantity
  {
    var a, b, e, q := price, p.currentPrice, p.entryPrice, p.quantity;
    assert (a - e) * q - (b - e) * q == (a - b) * q;
    assert (e - a) * q - (e - b) * q == -1.0 * (a - b) * q;
  }

  lemma RawIsTheCap(sizer: PositionSizer, r: Request)
    requires sizer.Valid() && r.Usable()
    ensures r.entryPrice * sizer.RawQuantity(r) == r.balance * r.leverage * sizer.RiskAllocation(r)
  {
    hide PositionSizer.RiskAllocation;
  }

  lemma ValueIsWithin(price: real, quantity: real, maxPrice: real, maxQuantity: real)
    requires 0.0 < price <= maxPrice && 0.0 < quantity <= maxQuantity
    ensures 0.0 < price * quantity <= maxPrice * maxQuantity
  {
    MulLeq(price, maxPrice, quantity);
    MulLeq(quantity, maxQuantity, maxPrice);
    MulLess(0.0, quantity, price);
  }

  /** What the sizer's cap means for any fill not above the sized price and any filled part of the quantity. */
  lemma FillIsWithinTheCap(sizer: PositionSizer, pair: string, r: Request, p: OpenPosition)
    requires sizer.Valid() && r.Usable() && sizer.CalculateQuantity(pair, r).Some?
    requires 0.0 < p.quantity <= sizer.CalculateQuantity(pair, r).value && 0.0 < p.entryPrice <= r.entryPrice
    ensures 0.0 < p.entryPrice * p.quantity <= r.balance * r.leverage * sizer.RiskAllocation(r)
  {
    hide PositionSizer.CalculateQuantity, PositionSizer.RawQuantity, PositionSizer.RiskAllocation;
    QuantityOfRaw(sizer, pair, r);
    RawIsTheCap(sizer, r);
    ValueIsWithin(p.entryPrice, p.quantity, r.entryPrice, sizer.RawQuantity(r));
  }

  lemma AllocationCap(sizer: PositionSizer, r: Request)
    requires sizer.Valid() && r.Usable()
    ensures var y := r.liquidationLevel + sizer.marginBuffer;
      0.0 < y && sizer.RiskAllocation(r) * (y + r.leverage * r.stopLossPct) <= 1.0
  {
    LevelTimesLeverage(sizer, r);
    var z := r.liquidationLevel + sizer.marginBuffer + r.leverage * r.stopLossPct;
    MulLeq(sizer.RiskAllocation(r), 1.0 / z, z);
    assert 1.0 / z * z == 1.0;
  }

  /**
   A sized position is not liquidated before its stop: once its margin has been
   taken from the balance, at every price that is not beyond the stop its
   maintenance ratio is at least the liquidation level plus the buffer. This
   holds for any fill not above the sized price and for partial fills.
   */
  lemma NoLiquidationBeforeTheStop(sizer: PositionSizer, pair: string, r: Request, p: OpenPosition)
    requires sizer.Valid() && r.Usable() && sizer.CalculateQuantity(pair, r).Some?
    requires 0.0 < p.quantity <= sizer.CalculateQuantity(pair, r).value && 0.0 < p.entryPrice <= r.entryPrice
    requires p.leverage == r.leverage && BeforeStop(p, r.stopLossPct)
    ensures var ratio := MaintenanceRatio(r.balance - p.RequiredMargin(), [p]);
      && (ratio.None? <==> p.RequiredMargin() == 0.0)
      && (ratio.Some? ==> ratio.value >= r.liquidationLevel + sizer.marginBuffer
                          && !IsBelowLiquidationThreshold(ratio.value, r.liquidationLevel))
  {
    hide OpenPosition.RequiredMargin, OpenPosition.UnrealizedPnl, Truncate, StopLoss, NotBeyond;
    hide PositionSizer.CalculateQuantity, PositionSizer.RiskAllocation, TotalRequired, TotalUnrealized;
    var x, m := p.entryPrice * p.quantity, p.RequiredMargin();
    var y := r.liquidationLevel + sizer.marginBuffer;
    FillIsWithinTheCap(sizer, pair, r, p);
    AllocationCap(sizer, r);
    RawIsPositive(sizer, r);
    MarginAtStop(r.balance, x, r.leverage, r.stopLossPct, y, sizer.RiskAllocation(r));
    LossBeforeStop(p, r.stopLossPct);
    TruncatedMargin(p);
    MulLeq(m, x / r.leverage, y);
    SinglePosition(p);
    if m != 0.0 {
      RatioAtLeast(r.balance + p.UnrealizedPnl(), m, y);
    }
  }

  lemma SinglePosition(p: OpenPosition)
    requires p.leverage != 0.0
    ensures TotalRequired([p]) == p.RequiredMargin() && TotalUnrealized([p]) == p.UnrealizedPnl()
  {
    assert [p][..0] == [];
  }

  lemma RatioAtLeast(equity: real, margin: real, y: real)
    requires margin > 0.0 && equity >= y * margin
    ensures equity / margin >= y
  {
    DivLeq(y * margin, equity, margin);
    assert y * margin / margin == y;
  }

  // --------------------------------------------------- fills at any price

  /** Whether the only position of an account is not liquidated at the level `y` once its margin has been taken. */
  predicate KeepsTheLevel(balance: real, p: OpenPosition, y: real)
    requires p.leverage != 0.0
  {
    var ratio := MaintenanceRatio(balance - p.RequiredMargin(), [p]);
    ratio.Some? ==> !IsBelowLiquidationThreshold(ratio.value, y)
  }

  /** The same at every price that is not beyond the stop. */
  ghost predicate KeepsTheLevelUpToTheStop(balance: real, p: OpenPosition, stopPct: real, y: real)
    requires p.leverage != 0.0
  {
    forall price | BeforeStop(p.(currentPrice := price), stopPct) :: KeepsTheLevel(balance, p.(currentPrice := price), y)
  }

  /** The margin at the level `y`, and the loss at the stop. */
  function ReserveOf(p: OpenPosition, stopPct: real, y: real): real
    requires p.leverage != 0.0
  {
    y * p.RequiredMargin() + stopPct * (p.entryPrice * p.quantity)
  }

  lemma RatioIsAtLeastExactlyWhen(equity: real, margin: real, y: real)
    requires margin > 0.0
    ensures equity / margin >= y <==> equity >= y * margin
  {
    if equity >= y * margin {
      RatioAtLeast(equity, margin, y);
    }
    var ratio := equity / margin;
    assert ratio * margin == equity;
    if ratio >= y {
      MulLeq(y, ratio, margin);
    }
  }

  lemma LevelIsKeptExactlyWhen(balance: real, p: OpenPosition, y: real)
    requires p.leverage != 0.0 && p.RequiredMargin() > 0.0
    ensures KeepsTheLevel(balance, p, y) <==> balance + p.UnrealizedPnl() >= y * p.RequiredMargin()
  {
    hide OpenPosition.RequiredMargin, OpenPosition.UnrealizedPnl, TotalRequired, TotalUnrealized;
    SinglePosition(p);
    RatioIsAtLeastExactlyWhen(balance + p.UnrealizedPnl(), p.RequiredMargin(), y);
  }

  lemma NoMarginNoLevel(balance: real, p: OpenPosition, y: real)
    requires p.leverage != 0.0 && p.RequiredMargin() == 0.0
    ensures KeepsTheLevel(balance, p, y)
  {
    hide OpenPosition.RequiredMargin;
    SinglePosition(p);
  }

  lemma AtPrice(p: OpenPosition, price: real, stopPct: real, y: real)
    requires p.leverage != 0.0
    ensures p.(currentPrice := price).RequiredMargin() == p.RequiredMargin()
    ensures ReserveOf(p.(currentPrice := price), stopPct, y) == ReserveOf(p, stopPct, y)
  {
    hide MarginOf;
  }

  /**
   A position that was filled at any price and for any quantity is never below the
   level up to its stop exactly when its margin at that level and its loss at the
   stop fit into the balance, or its margin is truncated to nothing.
   */
  lemma LevelUpToTheStopExactlyWhen(balance: real, p: OpenPosition, stopPct: real, y: real)
    requires p.entryPrice > 0.0 && p.quantity > 0.0 && p.leverage > 0.0
    ensures KeepsTheLevelUpToTheStop(balance, p, stopPct, y)
       <==> p.RequiredMargin() == 0.0 || ReserveOf(p, stopPct, y) <= balance
  {
    hide OpenPosition.UnrealizedPnl, OpenPosition.RequiredMargin, StopLoss, KeepsTheLevel;
    TruncatedMargin(p);
    var atStop := StopLoss(p.direction, p.entryPrice, stopPct);
    var q := p.(currentPrice := atStop);
    AtPrice(p, atStop, stopPct, y);
    assert BeforeStop(q, stopPct);
    LossAtStop(q, stopPct);
    if p.RequiredMargin() > 0.0 {
      LevelIsKeptExactlyWhen(balance, q, y);
    }
    forall price | BeforeStop(p.(currentPrice := price), stopPct)
      ensures p.RequiredMargin() == 0.0 || ReserveOf(p, stopPct, y) <= balance
         ==> KeepsTheLevel(balance, p.(currentPrice := price), y)
    {
      var at := p.(currentPrice := price);
      AtPrice(p, price, stopPct, y);
      LossBeforeStop(at, stopPct);
      if p.RequiredMargin() > 0.0 {
        LevelIsKeptExactlyWhen(balance, at, y);
      } else {
        NoMarginNoLevel(balance, at, y);
      }
    }
  }

  /**
   The price of the fill alone does not decide. With the sized quantity of a whole
   allocation, a fill ten percent above the sized price is below the level at its
   stop; with that of a tenth of the balance the same fill never is.
   */
  lemma AFillAboveTheSizedPrice()
    ensures var sizer := PositionSizer(map["p" := 1.0], 0.0, map[]);
      var whole, tenth := Request(1000.0, 100.0, 10.0, 1.0, 0.1, 1.0), Request(1000.0, 100.0, 10.0, 0.1, 0.1, 1.0);
      var big, small := OpenPosition(Long, 110.0, 110.0, 50.0, 10.0), OpenPosition(Long, 110.0, 110.0, 10.0, 10.0);
      && sizer.CalculateQuantity("p", whole) == Some(big.quantity)
      && sizer.CalculateQuantity("p", tenth) == Some(small.quantity)
      && !KeepsTheLevelUpToTheStop(1000.0, big, 0.1, 1.0)
      && KeepsTheLevelUpToTheStop(1000.0, small, 0.1, 1.0)
  {
    hide KeepsTheLevelUpToTheStop;
    LevelUpToTheStopExactlyWhen(1000.0, OpenPosition(Long, 110.0, 110.0, 50.0, 10.0), 0.1, 1.0);
    LevelUpToTheStopExactlyWhen(1000.0, OpenPosition(Long, 110.0, 110.0, 10.0, 10.0), 0.1, 1.0);
  }

  // ------------------------------------------------- the risk of one position

  const TARGET_RISK_PCT := 0.01
  const GMO_FX_LEVERAGE := 10.0

  function AllocationFor(stopLossPct: real): (a: real)
    requires stopLossPct > 0.0
    ensures 0.0 < a <= 1.0
  {
    var a := TARGET_RISK_PCT / (GMO_FX_LEVERAGE * stopLossPct);
    if a <= 1.0 then a else 1.0
  }

  /** The allocation is the largest one at which the loss up to the stop is within the target. */
  lemma AllocationIsTheLargest(stopLossPct: real, a: real)
    requires stopLossPct > 0.0 && 0.0 < a <= 1.0
    ensures a <= AllocationFor(stopLossPct) <==> 10.0 * stopLossPct * a <= 0.01
  {
    var z := 10.0 * stopLossPct;
    var cap := 0.01 / z;
    assert cap * z == 0.01;
    LeqTimes(a, cap, z);
    assert a * z == z * a;
  }

  /** With this allocation and leverage, a position loses at most 1% of the balance up to its stop. */
  lemma RiskIsOnePercent(sizer: PositionSizer, pair: string, r: Request, p: OpenPosition)
    requires sizer.Valid() && r.Usable() && sizer.CalculateQuantity(pair, r).Some?
    requires r.leverage == GMO_FX_LEVERAGE && r.allocationPct == AllocationFor(r.stopLossPct)
    requires 0.0 < p.quantity <= sizer.CalculateQuantity(pair, r).value && 0.0 < p.entryPrice <= r.entryPrice
    requires BeforeStop(p, r.stopLossPct)
    ensures p.UnrealizedPnl() >= -(TARGET_RISK_PCT * r.balance)
  {
    hide OpenPosition.UnrealizedPnl, StopLoss, NotBeyond, AllocationFor;
    hide PositionSizer.CalculateQuantity, PositionSizer.RiskAllocation;
    var x, s := p.entryPrice * p.quantity, r.stopLossPct;
    FillIsWithinTheCap(sizer, pair, r, p);
    RawIsPositive(sizer, r);
    LossBeforeStop(p, s);
    OnePercent(r.balance, x, s, sizer.RiskAllocation(r));
  }

  lemma OnePercent(b: real, x: real, s: real, risk: real)
    requires b > 0.0 && s > 0.0 && 0.0 < risk <= AllocationFor(s) && x <= b * GMO_FX_LEVERAGE * risk
    ensures s * x <= TARGET_RISK_PCT * b
  {
    var z := GMO_FX_LEVERAGE * s;
    assert TARGET_RISK_PCT / z * z == TARGET_RISK_PCT;
    MulLeq(risk, TARGET_RISK_PCT / z, z);
    MulLeq(risk * z, TARGET_RISK_PCT, b);
    MulLeq(x, b * GMO_FX_LEVERAGE * risk, s);
    assert b * GMO_FX_LEVERAGE * risk * s == risk * z * b;
  }

  // ------------------------------------------------------ several positions

  function AtStop(direction: Direction, entry: real, quantity: real, leverage: real, stopPct: real): OpenPosition {
    OpenPosition(direction, entry, StopLoss(direction, entry, stopPct), quantity, leverage)
  }

  /** What each position, at its own stop, uses of the balance: the margin at the level `y`, and its loss. */
  function Reserve(positions: seq<OpenPosition>, stops: seq<real>, y: real): real
    requires Leveraged(positions) && |stops| == |positions|
  {
    if positions == [] then 0.0
    else
      var n := |positions| - 1;
      var p := positions[n];
      Reserve(positions[..n], stops[..n], y) + y * p.RequiredMargin() + stops[n] * (p.entryPrice * p.quantity)
  }

  predicate AtStops(positions: seq<OpenPosition>, stops: seq<real>)
    requires |stops| == |positions|
  {
    forall i | 0 <= i < |positions| ::
      positions[i].currentPrice == StopLoss(positions[i].direction, positions[i].entryPrice, stops[i])
  }

  lemma {:induction false} ReserveAtStops(positions: seq<OpenPosition>, stops: seq<real>, y: real)
    requires Leveraged(positions) && |stops| == |positions| && AtStops(positions, stops)
    ensures Reserve(positions, stops, y) == y * TotalRequired(positions) - TotalUnrealized(positions)
  {
    hide OpenPosition.RequiredMargin, OpenPosition.UnrealizedPnl, StopLoss, Truncate;
    if positions != [] {
      var n := |positions| - 1;
      var p := positions[n];
      ReserveAtStops(positions[..n], stops[..n], y);
      LossAtStop(p, stops[n]);
      AddTimes(y, TotalRequired(positions[..n]), p.RequiredMargin());
    }
  }

  lemma AddTimes(y: real, a: real, b: real)
    ensures y * (a + b) == y * a + y * b
  {
  }

  lemma LossAtStop(p: OpenPosition, stopPct: real)
    requires p.currentPrice == StopLoss(p.direction, p.entryPrice, stopPct)
    ensures p.UnrealizedPnl() == -(stopPct * (p.entryPrice * p.quantity))
  {
    if p.direction.Long? {
      assert p.currentPrice - p.entryPrice == -(stopPct * p.entryPrice);
    } else {
      assert p.entryPrice - p.currentPrice == -(stopPct * p.entryPrice);
    }
  }

  /**
   Positions that are all at their stops keep the ratio `y` exactly when their
   reserves fit together into the balance from which their margins were taken.
   */
  lemma AllAtTheirStops(balance: real, positions: seq<OpenPosition>, stops: seq<real>, y: real)
    requires Leveraged(positions) && |stops| == |positions| && AtStops(positions, stops)
    requires TotalRequired(positions) > 0.0
    ensures var ratio := MaintenanceRatio(balance - TotalRequired(positions), positions);
      ratio.Some? && (ratio.value >= y <==> Reserve(positions, stops, y) <= balance)
  {
    ReserveAtStops(positions, stops, y);
    var equity, m := balance + TotalUnrealized(positions), TotalRequired(positions);
    RatioIsAtLeastExactlyWhen(equity, m, y);
  }

  /**
   The guarantee is for one position. A second position sized from what the first
   one left of the balance passes the same check, and both at their stops are
   below the liquidation level.
   */
  lemma TwoPositionsCanBeLiquidated()
    ensures var sizer := PositionSizer(map["p" := 1.0], 0.0, map[]);
      var first, second := Request(1000.0, 100.0, 10.0, 1.0, 0.1, 1.0), Request(500.0, 100.0, 10.0, 1.0, 0.1, 1.0);
      var a, b := AtStop(Long, 100.0, 50.0, 10.0, 0.1), AtStop(Long, 100.0, 25.0, 10.0, 0.1);
      && sizer.CalculateQuantity("p", first) == Some(50.0)
      && first.balance - a.RequiredMargin() == second.balance
      && sizer.CalculateQuantity("p", second) == Some(25.0)
      && MaintenanceRatio(second.balance - b.RequiredMargin(), [a, b]).Some?
      && IsBelowLiquidationThreshold(MaintenanceRatio(second.balance - b.RequiredMargin(), [a, b]).value, 1.0)
  {
    var a, b := AtStop(Long, 100.0, 50.0, 10.0, 0.1), AtStop(Long, 100.0, 25.0, 10.0, 0.1);
    SinglePosition(a);
    assert [a, b][..1] == [a];
  }
}

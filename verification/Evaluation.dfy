/**
 The metrics of a run in `crates/sim/src/eval.rs`. Several of them count the same
 bars in two ways, once over the labels and once over the legs.
 */
module Evaluation {
  import opened Wrappers
  import opened Market
  import opened Benchmark
  import opened Engine
  import opened Sorted

  // ------------------------------------------------------------------ one leg

  /** How often `x` stands between `lo` and `hi`. */
  function CountOf(s: seq<int>, x: int, lo: nat, hi: nat): nat
    requires lo <= hi <= |s|
  {
    if lo == hi then 0 else CountOf(s, x, lo, hi - 1) + if s[hi - 1] == x then 1 else 0
  }

  datatype LegEval = LegEval(matched: nat, total: nat, flatBars: nat, oppositeBars: nat, firstMatch: Option<nat>)

  /** `i` is the first bar from `lo` on, and before `hi`, at which the run is on side `d`. */
  predicate FirstOn(positions: seq<int>, d: int, lo: nat, hi: nat, i: nat)
    requires hi <= |positions|
  {
    lo <= i < hi && positions[i] == d && forall j: nat | lo <= j < i :: positions[j] != d
  }

  /** The count is the number of positions with the value. */
  lemma {:induction false} CountIsTheNumber(s: seq<int>, x: int, lo: nat, hi: nat)
    requires lo <= hi <= |s|
    ensures CountOf(s, x, lo, hi) == |set i | lo <= i < hi && s[i] == x|
  {
    if lo < hi {
      CountIsTheNumber(s, x, lo, hi - 1);
      var a, b := set i | lo <= i < hi - 1 && s[i] == x, set i | lo <= i < hi && s[i] == x;
      assert b == if s[hi - 1] == x then a + {hi - 1} else a;
    }
  }

  /** The first match is where the count goes from none to one. */
  lemma FirstIsWhereTheCountBegins(positions: seq<int>, d: int, lo: nat, hi: nat, i: nat)
    requires hi <= |positions|
    ensures FirstOn(positions, d, lo, hi, i) <==>
      lo <= i < hi && CountOf(positions, d, lo, i) == 0 && CountOf(positions, d, lo, i + 1) == 1
  {
    if lo <= i < hi {
      NoneCounted(positions, d, lo, i);
    }
  }

  lemma {:induction false} NoneCounted(s: seq<int>, x: int, lo: nat, hi: nat)
    requires lo <= hi <= |s|
    ensures CountOf(s, x, lo, hi) == 0 <==> forall j: nat | lo <= j < hi :: s[j] != x
  {
    if lo < hi {
      NoneCounted(s, x, lo, hi - 1);
    }
  }

  method EvaluateLeg(leg: Leg, positions: seq<int>) returns (e: LegEval)
    requires leg.a < leg.b < |positions| && leg.direction != 0
    ensures e.matched == CountOf(positions, leg.direction, leg.a + 1, leg.b + 1)
    ensures e.flatBars == CountOf(positions, 0, leg.a + 1, leg.b + 1)
    ensures e.matched + e.flatBars + e.oppositeBars == e.total == leg.b - leg.a
    ensures e.firstMatch.None? <==> e.matched == 0
    ensures e.firstMatch.Some? ==> FirstOn(positions, leg.direction, leg.a + 1, leg.b + 1, e.firstMatch.value)
  {
    var start, end := leg.a + 1, leg.b;
    var matched, flatBars, oppositeBars := 0, 0, 0;
    var firstMatch: Option<nat> := None;
    for i := start to end + 1
      invariant matched == CountOf(positions, leg.direction, start, i)
      invariant flatBars == CountOf(positions, 0, start, i)
      invariant oppositeBars >= 0 && matched + flatBars + oppositeBars == i - start
      invariant firstMatch.None? <==> matched == 0
      invariant firstMatch.None? ==> forall j: nat | start <= j < i :: positions[j] != leg.direction
      invariant firstMatch.Some? ==> FirstOn(positions, leg.direction, start, i, firstMatch.value)
    {
      var p := positions[i];
      if p == leg.direction {
        matched := matched + 1;
        if firstMatch.None? {
          firstMatch := Some(i);
        }
      } else if p == 0 {
        flatBars := flatBars + 1;
      } else {
        oppositeBars := oppositeBars + 1;
      }
    }
    e := LegEval(matched, end - start + 1, flatBars, oppositeBars, firstMatch);
  }

  // ------------------------------------------------- the sides of the whole run

  /** The bars before `n` that belong to a leg. */
  function Labeled(labels: seq<int>, n: nat): nat
    requires n <= |labels|
  {
    if n == 0 then 0 else Labeled(labels, n - 1) + if labels[n - 1] != 0 then 1 else 0
  }

  /** The bars before `n` that belong to a leg and at which the run is on its side. */
  function CorrectSide(labels: seq<int>, positions: seq<int>, n: nat): nat
    requires n <= |labels| && n <= |positions|
  {
    if n == 0 then 0
    else CorrectSide(labels, positions, n - 1) + if labels[n - 1] != 0 && positions[n - 1] == labels[n - 1] then 1 else 0
  }

  /** The same counts over the legs. */
  function MatchedOf(legs: seq<Leg>, positions: seq<int>): nat
    requires forall k | 0 <= k < |legs| :: legs[k].a < legs[k].b < |positions|
  {
    if legs == [] then 0
    else
      var leg := legs[|legs| - 1];
      MatchedOf(legs[..|legs| - 1], positions) + CountOf(positions, leg.direction, leg.a + 1, leg.b + 1)
  }

  function LengthOf(legs: seq<Leg>): int {
    if legs == [] then 0 else LengthOf(legs[..|legs| - 1]) + legs[|legs| - 1].b - legs[|legs| - 1].a
  }

  lemma {:induction false} OneLabel(labels: seq<int>, positions: seq<int>, d: int, lo: nat, hi: nat)
    requires lo <= hi <= |labels| && hi <= |positions| && forall i | lo <= i < hi :: labels[i] == d
    ensures CorrectSide(labels, positions, hi) - CorrectSide(labels, positions, lo)
         == if d == 0 then 0 else CountOf(positions, d, lo, hi)
    ensures Labeled(labels, hi) - Labeled(labels, lo) == if d == 0 then 0 else hi - lo
  {
    if lo < hi {
      OneLabel(labels, positions, d, lo, hi - 1);
    }
  }

  lemma {:induction false} LegsAreOrdered(bars: seq<Bar>, theta: int, legs: seq<Leg>, j: nat, k: nat)
    requires LegsChain(bars, theta, legs) && j < k < |legs|
    ensures legs[j].b <= legs[k].a
  {
    if j + 1 < k {
      LegsAreOrdered(bars, theta, legs, j, k - 1);
      assert IsMove(bars, theta, legs[k - 1]);
    }
  }

  lemma LegsSpan(bars: seq<Bar>, theta: int, legs: seq<Leg>, k: nat)
    requires LegsChain(bars, theta, legs) && k < |legs|
    ensures legs[0].a <= legs[k].a < legs[k].b <= legs[|legs| - 1].b < |bars|
  {
    var last := |legs| - 1;
    assert IsMove(bars, theta, legs[0]) && IsMove(bars, theta, legs[k]) && IsMove(bars, theta, legs[last]);
    if 0 < k {
      LegsAreOrdered(bars, theta, legs, 0, k);
    }
    if k < last {
      LegsAreOrdered(bars, theta, legs, k, last);
    }
  }

  /** No leg covers a bar up to the start of the first leg or after the end of the last one. */
  lemma OutsideTheLegs(bars: seq<Bar>, theta: int, legs: seq<Leg>, labels: seq<int>, i: nat)
    requires LegsChain(bars, theta, legs) && LabelsOf(legs, labels) && i < |labels|
    requires legs != [] ==> i <= legs[0].a || legs[|legs| - 1].b < i
    ensures labels[i] == 0
  {
    if Covered(legs, i) {
      var k :| 0 <= k < |legs| && legs[k].a < i <= legs[k].b;
      LegsSpan(bars, theta, legs, k);
      assert false;
    }
  }

  /** The bar after the last leg. */
  function EndOfLegs(legs: seq<Leg>): nat { if legs == [] then 0 else legs[|legs| - 1].b + 1 }

  lemma LegsFitBars(bars: seq<Bar>, theta: int, legs: seq<Leg>)
    requires LegsChain(bars, theta, legs)
    ensures forall k | 0 <= k < |legs| :: legs[k].a < legs[k].b && legs[k].b + 1 < |bars|
    ensures EndOfLegs(legs) <= |bars|
  {
    assert forall j: nat | j < |legs| :: IsMove(bars, theta, legs[j]);
  }

  lemma {:induction false} CountsUpToLeg(
      bars: seq<Bar>, theta: int, legs: seq<Leg>, labels: seq<int>, positions: seq<int>, k: nat)
    requires LegsChain(bars, theta, legs) && LabelsOf(legs, labels) && |labels| == |bars| <= |positions|
    requires k < |legs|
    ensures forall j | 0 <= j < |legs| :: legs[j].a < legs[j].b < |bars|
    ensures CorrectSide(labels, positions, legs[k].b + 1) == MatchedOf(legs[..k + 1], positions)
    ensures Labeled(labels, legs[k].b + 1) == LengthOf(legs[..k + 1]) == legs[k].b - legs[0].a
  {
    hide LabelsOf, LegsChain, CountOf;
    LegsFitBars(bars, theta, legs);
    var leg := legs[k];
    assert legs[..k + 1][..k] == legs[..k];
    forall i | leg.a < i <= leg.b ensures labels[i] == leg.direction {
      LabelInLeg(legs, labels, k, i);
    }
    OneLabel(labels, positions, leg.direction, leg.a + 1, leg.b + 1);
    LegIsDirected(bars, theta, legs, k);
    if k == 0 {
      forall i: nat | i <= leg.a ensures labels[i] == 0 {
        OutsideTheLegs(bars, theta, legs, labels, i);
      }
      OneLabel(labels, positions, 0, 0, leg.a + 1);
    } else {
      CountsUpToLeg(bars, theta, legs, labels, positions, k - 1);
    }
  }

  lemma LegIsDirected(bars: seq<Bar>, theta: int, legs: seq<Leg>, k: nat)
    requires LegsChain(bars, theta, legs) && k < |legs|
    ensures legs[k].direction != 0 && (k > 0 ==> legs[k - 1].b == legs[k].a)
  {
    assert IsMove(bars, theta, legs[k]);
    if k > 0 {
      assert legs[k - 1].b == legs[k - 1 + 1].a;
    }
  }

  lemma LabelInLeg(legs: seq<Leg>, labels: seq<int>, k: nat, i: nat)
    requires LabelsOf(legs, labels) && k < |legs| && legs[k].a < i <= legs[k].b && i < |labels|
    ensures labels[i] == legs[k].direction
  {
  }

  /** Nothing is counted after the last leg. */
  lemma NothingAfterTheLegs(bars: seq<Bar>, theta: int, legs: seq<Leg>, labels: seq<int>, positions: seq<int>)
    requires LegsChain(bars, theta, legs) && LabelsOf(legs, labels) && |labels| <= |positions| && EndOfLegs(legs) <= |labels|
    ensures CorrectSide(labels, positions, |labels|) == CorrectSide(labels, positions, EndOfLegs(legs))
    ensures Labeled(labels, |labels|) == Labeled(labels, EndOfLegs(legs))
  {
    hide LabelsOf, LegsChain, CorrectSide, Labeled;
    forall i: nat | EndOfLegs(legs) <= i < |labels| ensures labels[i] == 0 {
      OutsideTheLegs(bars, theta, legs, labels, i);
    }
    OneLabel(labels, positions, 0, EndOfLegs(legs), |labels|);
  }

  /**
   Counting over the labels and summing over the legs give the same numbers: the
   bars on the correct side, and the bars of the legs, which run without a gap.
   */
  lemma LabelsAndLegsAgree(bars: seq<Bar>, theta: int, legs: seq<Leg>, labels: seq<int>, positions: seq<int>)
    requires LegsChain(bars, theta, legs) && LabelsOf(legs, labels) && |labels| == |bars| <= |positions|
    ensures forall k | 0 <= k < |legs| :: legs[k].a < legs[k].b < |positions|
    ensures CorrectSide(labels, positions, |labels|) == MatchedOf(legs, positions)
    ensures Labeled(labels, |labels|) == LengthOf(legs)
    ensures LengthOf(legs) == if legs == [] then 0 else legs[|legs| - 1].b - legs[0].a
  {
    hide LabelsOf, LegsChain, CountOf;
    LegsFitBars(bars, theta, legs);
    NothingAfterTheLegs(bars, theta, legs, labels, positions);
    if legs != [] {
      hide CorrectSide, Labeled, MatchedOf, LengthOf;
      var last := |legs| - 1;
      CountsUpToLeg(bars, theta, legs, labels, positions, last);
      assert legs[..last + 1] == legs;
    }
  }

  // ------------------------------------------------------------------ segments

  /** The first bar of segment `i`, and the bar count for 6: five equal parts, the last takes the rest. */
  function Boundary(n: nat, i: nat): nat
    requires i <= 6
  {
    if i == 6 then n else i * (n / 6)
  }

  /** Bar `x` belongs to segment `i`; an index past the end belongs to the last one. */
  predicate InSegment(n: nat, i: nat, x: nat)
    requires i < 6
  {
    Boundary(n, i) <= x && (i == 5 || x < Boundary(n, i + 1))
  }

  method SegmentIndex(exitIdx: nat, boundaries: seq<nat>, ghost n: nat) returns (r: nat)
    requires |boundaries| == 7 && forall i | 0 <= i <= 6 :: boundaries[i] == Boundary(n, i)
    ensures r < 6 && InSegment(n, r, exitIdx)
  {
    for i := 0 to 6
      invariant i > 0 ==> boundaries[i] <= exitIdx
    {
      if exitIdx < boundaries[i + 1] {
        return i;
      }
    }
    return 5;
  }

  /** The six segments partition the bars. */
  lemma SegmentsPartition(n: nat, x: nat)
    ensures exists i: nat :: i < 6 && InSegment(n, i, x)
    ensures forall i: nat, j: nat | i < 6 && j < 6 && InSegment(n, i, x) && InSegment(n, j, x) :: i == j
  {
    var b := n / 6;
    var i := if x < b then 0 else if x < 2 * b then 1 else if x < 3 * b then 2 else if x < 4 * b then 3 else if x < 5 * b then 4 else 5;
    assert InSegment(n, i, x);
  }

  function PnlIn(trades: seq<SimTrade>, n: nat, i: nat): int
    requires i < 6
  {
    if trades == [] then 0
    else
      var tr := trades[|trades| - 1];
      PnlIn(trades[..|trades| - 1], n, i) + if InSegment(n, i, tr.exitIdx) then tr.pnlMilli else 0
  }

  function TotalPnl(trades: seq<SimTrade>): int {
    if trades == [] then 0 else TotalPnl(trades[..|trades| - 1]) + trades[|trades| - 1].pnlMilli
  }

  /** Profits can be taken in parts, and a trade counts in the sixth of the bars in which it ends, the last one with the rest. */
  lemma {:induction false} ProfitsInParts(a: seq<SimTrade>, b: seq<SimTrade>, n: nat, i: nat)
    requires i < 6
    ensures PnlIn(a + b, n, i) == PnlIn(a, n, i) + PnlIn(b, n, i) && TotalPnl(a + b) == TotalPnl(a) + TotalPnl(b)
    ensures |b| == 1 ==>
      && TotalPnl(b) == b[0].pnlMilli
      && PnlIn(b, n, i) == if i * (n / 6) <= b[0].exitIdx && (i == 5 || b[0].exitIdx < (i + 1) * (n / 6)) then b[0].pnlMilli else 0
  {
    if b == [] {
      assert a + b == a;
    } else {
      var k := |b| - 1;
      ProfitsInParts(a, b[..k], n, i);
      assert (a + b)[..|a + b| - 1] == a + b[..k];
      if k == 0 {
        assert PnlIn(b[..0], n, i) == 0 && TotalPnl(b[..0]) == 0;
      }
    }
  }

  function SumOfSix(s: seq<int>): int
    requires |s| == 6
  {
    s[0] + s[1] + s[2] + s[3] + s[4] + s[5]
  }

  method ComputeSegments(n: nat, trades: seq<SimTrade>) returns (segments: seq<int>)
    ensures |segments| == 6 && forall i: nat | i < 6 :: segments[i] == PnlIn(trades, n, i)
    ensures SumOfSix(segments) == TotalPnl(trades)
  {
    var base, remainder := n / 6, n % 6;
    var boundaries: seq<nat> := [0, 0, 0, 0, 0, 0, 0];
    for i := 0 to 6
      invariant |boundaries| == 7 && forall j: nat | j <= i :: boundaries[j] == Boundary(n, j)
    {
      var size := if i < 5 then base else base + remainder;
      boundaries := boundaries[i + 1 := boundaries[i] + size];
    }
    segments := [0, 0, 0, 0, 0, 0];
    for k := 0 to |trades|
      invariant |segments| == 6 && forall i: nat | i < 6 :: segments[i] == PnlIn(trades[..k], n, i)
      invariant SumOfSix(segments) == TotalPnl(trades[..k])
    {
      var idx := SegmentIndex(trades[k].exitIdx, boundaries, n);
      SegmentsPartition(n, trades[k].exitIdx);
      assert trades[..k + 1][..k] == trades[..k];
      segments := segments[idx := segments[idx] + trades[k].pnlMilli];
    }
    assert trades[..|trades|] == trades;
  }

  // --------------------------------------------------------------- missed legs

  const MISSED_LEGS_SHOWN := 20

  /** The order of the list: the most profitable leg first, the earlier one of two equal ones. */
  predicate Outranks(x: Leg, y: Leg) {
    x.realizableMilli > y.realizableMilli || (x.realizableMilli == y.realizableMilli && x.a < y.a)
  }

  /** A leg of whose bars the run was on the right side at less than half. */
  predicate Missed(leg: Leg, positions: seq<int>)
    requires leg.a < leg.b < |positions|
  {
    CountOf(positions, leg.direction, leg.a + 1, leg.b + 1) * 2 < leg.b - leg.a
  }

  /** A leg counts as missed exactly when the run was on its side at less than half of its bars. */
  lemma MissedIsLessThanHalf(leg: Leg, positions: seq<int>)
    requires leg.a < leg.b < |positions|
    ensures Missed(leg, positions) <==> 2 * |set i | leg.a < i <= leg.b && positions[i] == leg.direction| < leg.b - leg.a
  {
    CountIsTheNumber(positions, leg.direction, leg.a + 1, leg.b + 1);
    assert (set i | leg.a < i <= leg.b && positions[i] == leg.direction)
        == (set i | leg.a + 1 <= i < leg.b + 1 && positions[i] == leg.direction);
  }

  predicate Ranked(s: seq<Leg>) { InOrder(s, Outranks) }

  /** As a stable sort does. */
  lemma InsertRanks(s: seq<Leg>, leg: Leg)
    requires Ranked(s) && forall i | 0 <= i < |s| :: s[i].a != leg.a
    ensures Ranked(Insert(s, leg, Outranks))
    ensures forall x :: x in Insert(s, leg, Outranks) <==> x == leg || x in s
  {
    InsertMembers(s, leg, Outranks);
    InsertKeepsOrder(s, leg, Outranks);
  }

  /** The missed legs are exactly the list when it is not full; a full list leaves out only legs that rank lower. */
  method MissedLegs(legs: seq<Leg>, positions: seq<int>) returns (r: seq<Leg>)
    requires forall k | 0 <= k < |legs| :: legs[k].a < legs[k].b < |positions| && legs[k].direction != 0
    requires forall j, k | 0 <= j < k < |legs| :: legs[j].a != legs[k].a
    ensures Ranked(r) && |r| <= MISSED_LEGS_SHOWN
    ensures forall x | x in r :: x in legs && Missed(x, positions)
    ensures forall x | x in legs && Missed(x, positions) && x !in r ::
              |r| == MISSED_LEGS_SHOWN && forall y | y in r :: Outranks(y, x)
  {
    var candidates: seq<Leg> := [];
    for k := 0 to |legs|
      invariant Ranked(candidates)
      invariant forall x :: x in candidates <==> x in legs[..k] && Missed(x, positions)
    {
      var e := EvaluateLeg(legs[k], positions);
      assert legs[..k + 1] == legs[..k] + [legs[k]];
      if e.matched * 2 < e.total {
        forall i | 0 <= i < |candidates| ensures candidates[i].a != legs[k].a {
          assert candidates[i] in candidates;
          var j :| 0 <= j < k && legs[j] == candidates[i];
        }
        InsertRanks(candidates, legs[k]);
        candidates := Insert(candidates, legs[k], Outranks);
      }
    }
    assert legs[..|legs|] == legs;
    r := candidates[..Min(|candidates|, MISSED_LEGS_SHOWN)];
    forall x, y | x in candidates && x !in r && y in r ensures Outranks(y, x) {
      var i :| 0 <= i < |candidates| && candidates[i] == x;
      var j :| 0 <= j < |r| && r[j] == y;
      assert i >= |r|;
      assert candidates[j] == y;
    }
  }
}

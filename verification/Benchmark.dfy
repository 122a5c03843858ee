/**
 The zigzag benchmark of `crates/sim/src/benchmark.rs`: an automaton cuts the path
 of the mid closes at its turning points, and each piece becomes a leg.
 */
module Benchmark {
  import opened Wrappers
  import opened Market

  datatype TurnKind = Low | High

  datatype Turn = Turn(pos: nat, kind: TurnKind)

  datatype Direction = Up | Down

  function Other(kind: TurnKind): TurnKind {
    if kind.Low? then High else Low
  }

  function Mids(bars: seq<Bar>): (m: seq<int>)
    ensures |m| == |bars| && forall i | 0 <= i < |m| :: m[i] == bars[i].Mid2Close()
  {
    seq(|bars|, i requires 0 <= i < |bars| => bars[i].Mid2Close())
  }

  // --------------------------------------------------- what a list of turns must be

  /** The path seen from a turn of kind `kind`: away from the turn is up. */
  ghost function Seen(m: seq<int>, kind: TurnKind): (f: seq<int>)
    ensures |f| == |m| && forall i | 0 <= i < |m| :: f[i] == if kind.Low? then m[i] else -m[i]
  {
    if kind.Low? then m else seq(|m|, i requires 0 <= i < |m| => -m[i])
  }

  /** Between `lo` and `hi` the path never falls back by theta. */
  ghost predicate NoReversal(f: seq<int>, theta: int, lo: nat, hi: nat)
    requires hi <= |f|
  {
    forall i, j | lo <= i <= j < hi :: f[i] - f[j] < theta
  }

  /** `p` holds the lowest value of the positions from `lo` up to `hi`. */
  ghost predicate Lowest(f: seq<int>, p: nat, lo: nat, hi: nat)
    requires p < |f| && hi <= |f|
  {
    forall i | lo <= i < hi :: f[p] <= f[i]
  }

  /** `p` is higher than everything from `lo` up to it. */
  ghost predicate NewHigh(f: seq<int>, p: nat, lo: nat)
    requires p < |f|
  {
    forall i | lo <= i < p :: f[i] < f[p]
  }

  /** A piece from the turn at `a` to the next turn at `b`. */
  ghost predicate IsSwing(m: seq<int>, theta: int, kind: TurnKind, a: nat, b: nat) {
    var f := Seen(m, kind);
    && a < b < |m|
    && f[b] - f[a] >= theta
    && Lowest(f, a, a, b + 1)
    && NewHigh(f, b, a)
    && NoReversal(f, theta, a, b + 1)
  }

  /** The piece after the last turn: confirmed by a move of theta and not reversed. */
  ghost predicate IsTail(m: seq<int>, theta: int, kind: TurnKind, a: nat) {
    var f := Seen(m, kind);
    && a < |m|
    && Lowest(f, a, a, |m|)
    && NoReversal(f, theta, a, |m|)
    && exists e :: a < e < |m| && f[e] - f[a] >= theta
  }

  ghost predicate Calm(m: seq<int>, theta: int, n: nat)
    requires n <= |m|
  {
    forall i, j | 0 <= i < n && 0 <= j < n :: m[i] - m[j] < theta
  }

  /** `p` is the first of the positions before `c` that holds their lowest value. */
  ghost predicate Earliest(f: seq<int>, p: nat, c: nat)
    requires c <= |f|
  {
    p < c && Lowest(f, p, 0, c) && forall i | 0 <= i < p :: f[p] < f[i]
  }

  /** `c` is where the path first leaves a band of theta, away from the turn at `p`. */
  ghost predicate Confirms(m: seq<int>, theta: int, kind: TurnKind, p: nat, c: nat) {
    var f := Seen(m, kind);
    && p < c < |m|
    && Calm(m, theta, c)
    && f[c] - f[p] >= theta
    && Earliest(f, p, c)
  }

  /** The first turn is the earliest extreme before the first move of theta. */
  ghost predicate IsHead(m: seq<int>, theta: int, kind: TurnKind, p: nat) {
    exists c: nat :: Confirms(m, theta, kind, p, c)
  }

  ghost predicate Swings(m: seq<int>, theta: int, turns: seq<Turn>) {
    forall k: nat | k + 1 < |turns| ::
      && turns[k + 1].kind == Other(turns[k].kind)
      && IsSwing(m, theta, turns[k].kind, turns[k].pos, turns[k + 1].pos)
  }

  /** The turning points of the path for moves of theta. */
  ghost predicate IsZigzag(m: seq<int>, theta: int, turns: seq<Turn>) {
    if turns == [] then Calm(m, theta, |m|)
    else
      var last := turns[|turns| - 1];
      && IsHead(m, theta, turns[0].kind, turns[0].pos)
      && Swings(m, theta, turns)
      && IsTail(m, theta, last.kind, last.pos)
  }

  // ------------------------------------------------------------------ the automaton

  /** The unfinished piece from the turn at `p`, seen up to `t`, with its extreme at `e`. */
  ghost predicate Piece(f: seq<int>, theta: int, p: nat, e: nat, t: nat) {
    && p < e < t <= |f|
    && f[e] - f[p] >= theta
    && Lowest(f, p, p, t)
    && NoReversal(f, theta, p, t)
    && NewHigh(f, e, p)
    && forall i | e <= i < t :: f[i] <= f[e]
  }

  lemma PieceGoesOn(f: seq<int>, theta: int, p: nat, e: nat, t: nat)
    requires theta >= 1 && t < |f| && Piece(f, theta, p, e, t) && f[e] - f[t] < theta
    ensures Piece(f, theta, p, if f[t] > f[e] then t else e, t + 1)
  {
  }

  lemma PieceReversed(f: seq<int>, g: seq<int>, theta: int, p: nat, e: nat, t: nat)
    requires theta >= 1 && |g| == |f| && forall i | 0 <= i < |f| :: g[i] == -f[i]
    requires t < |f| && Piece(f, theta, p, e, t) && f[e] - f[t] >= theta
    ensures Piece(g, theta, e, t, t + 1)
  {
    assert forall i | e <= i < t :: g[i] - g[e] < theta;
  }

  /** The turns found so far, whose last one starts an unfinished piece. */
  ghost predicate Found(m: seq<int>, theta: int, turns: seq<Turn>, kind: TurnKind, p: nat) {
    && turns != []
    && turns[|turns| - 1] == Turn(p, kind)
    && IsHead(m, theta, turns[0].kind, turns[0].pos)
    && Swings(m, theta, turns)
  }

  /** The state of the automaton before and after the first turn. */
  ghost predicate Searching(m: seq<int>, theta: int, hiPos: int, loPos: int, t: nat) {
    && t <= |m| && Calm(m, theta, t)
    && hiPos >= 0 && Earliest(Seen(m, High), hiPos, t)
    && loPos >= 0 && Earliest(Seen(m, Low), loPos, t)
  }

  ghost predicate Tracking(m: seq<int>, theta: int, turns: seq<Turn>, kind: TurnKind, e: int, t: nat) {
    && turns != [] && e >= 0
    && Found(m, theta, turns, kind, turns[|turns| - 1].pos)
    && Piece(Seen(m, kind), theta, turns[|turns| - 1].pos, e, t)
  }

  lemma SearchStart(m: seq<int>, theta: int)
    requires theta >= 1 && m != []
    ensures Searching(m, theta, 0, 0, 1)
  {
  }

  lemma SearchFurther(m: seq<int>, theta: int, hiPos: int, loPos: int, t: nat)
    requires theta >= 1 && t < |m| && Searching(m, theta, hiPos, loPos, t)
    ensures var hi, lo := if m[t] > m[hiPos] then t else hiPos, if m[t] < m[loPos] then t else loPos;
      && (m[t] - m[lo] < theta && m[hi] - m[t] < theta ==> Searching(m, theta, hi, lo, t + 1))
      && (m[t] - m[lo] >= theta ==> Tracking(m, theta, [Turn(lo, Low)], Low, t, t + 1))
      && (m[t] - m[lo] < theta && m[hi] - m[t] >= theta ==> Tracking(m, theta, [Turn(hi, High)], High, t, t + 1))
  {
    if m[t] - m[loPos] >= theta {
      FirstTurn(m, theta, Low, loPos, t);
    } else if m[hiPos] - m[t] >= theta {
      FirstTurn(m, theta, High, hiPos, t);
    } else {
      StillSearching(m, theta, hiPos, loPos, t);
    }
    hide Tracking, Searching;
  }

  lemma StillSearching(m: seq<int>, theta: int, hiPos: int, loPos: int, t: nat)
    requires theta >= 1 && t < |m| && Searching(m, theta, hiPos, loPos, t)
    requires m[t] - m[loPos] < theta && m[hiPos] - m[t] < theta
    ensures Searching(m, theta, if m[t] > m[hiPos] then t else hiPos, if m[t] < m[loPos] then t else loPos, t + 1)
  {
    EarliestFurther(Seen(m, High), hiPos, t);
    EarliestFurther(Seen(m, Low), loPos, t);
    assert Calm(m, theta, t + 1) by {
      assert forall i | 0 <= i < t :: m[loPos] <= m[i] <= m[hiPos];
    }
    hide Calm, Earliest;
  }

  lemma EarliestFurther(f: seq<int>, p: nat, t: nat)
    requires t < |f| && Earliest(f, p, t)
    ensures Earliest(f, if f[t] < f[p] then t else p, t + 1)
  {
  }

  lemma FirstTurn(m: seq<int>, theta: int, kind: TurnKind, p: nat, t: nat)
    requires theta >= 1 && t < |m| && Calm(m, theta, t)
    requires Earliest(Seen(m, kind), p, t)
    requires Seen(m, kind)[t] - Seen(m, kind)[p] >= theta
    ensures Tracking(m, theta, [Turn(p, kind)], kind, t, t + 1)
  {
    var f := Seen(m, kind);
    assert Confirms(m, theta, kind, p, t);
    assert forall i | 0 <= i < t :: f[i] - f[p] < theta;
  }

  /** How far the path at `t` has gone beyond the extreme at `e`. */
  ghost function Gain(m: seq<int>, kind: TurnKind, e: int, t: nat): int
    requires 0 <= e < |m| && t < |m|
  {
    if kind.Low? then m[t] - m[e] else m[e] - m[t]
  }

  lemma TrackStep(m: seq<int>, theta: int, turns: seq<Turn>, kind: TurnKind, e: int, t: nat)
    requires theta >= 1 && t < |m| && Tracking(m, theta, turns, kind, e, t)
    ensures 0 <= e < t
    ensures Gain(m, kind, e, t) > 0 ==> Tracking(m, theta, turns, kind, t, t + 1)
    ensures -theta < Gain(m, kind, e, t) <= 0 ==> Tracking(m, theta, turns, kind, e, t + 1)
    ensures Gain(m, kind, e, t) <= -theta ==> Tracking(m, theta, turns + [Turn(e, Other(kind))], Other(kind), t, t + 1)
  {
    var f := Seen(m, kind);
    assert Gain(m, kind, e, t) == f[t] - f[e];
    if f[e] - f[t] >= theta {
      TrackReversal(m, theta, turns, kind, e, t);
    } else {
      PieceGoesOn(f, theta, turns[|turns| - 1].pos, e, t);
      hide Found, Piece;
    }
  }

  lemma TrackReversal(m: seq<int>, theta: int, turns: seq<Turn>, kind: TurnKind, e: int, t: nat)
    requires theta >= 1 && t < |m| && Tracking(m, theta, turns, kind, e, t)
    requires Seen(m, kind)[e] - Seen(m, kind)[t] >= theta
    ensures Tracking(m, theta, turns + [Turn(e, Other(kind))], Other(kind), t, t + 1)
  {
    var p := turns[|turns| - 1].pos;
    PieceReversed(Seen(m, kind), Seen(m, Other(kind)), theta, p, e, t);
    assert IsSwing(m, theta, kind, p, e);
    FoundMore(m, theta, turns, kind, p, e);
  }

  lemma FoundMore(m: seq<int>, theta: int, turns: seq<Turn>, kind: TurnKind, p: nat, e: nat)
    requires Found(m, theta, turns, kind, p) && IsSwing(m, theta, kind, p, e)
    ensures Found(m, theta, turns + [Turn(e, Other(kind))], Other(kind), e)
  {
    hide IsSwing, IsHead;
  }

  lemma TrackingIsZigzag(m: seq<int>, theta: int, turns: seq<Turn>, kind: TurnKind, e: int)
    requires theta >= 1 && Tracking(m, theta, turns, kind, e, |m|)
    ensures IsZigzag(m, theta, turns)
  {
  }

  lemma SearchingIsZigzag(m: seq<int>, theta: int, hiPos: int, loPos: int)
    requires Searching(m, theta, hiPos, loPos, |m|)
    ensures IsZigzag(m, theta, [])
  {
  }

  method ExtractTurns(bars: seq<Bar>, theta: int) returns (turns: seq<Turn>)
    requires theta >= 1
    ensures IsZigzag(Mids(bars), theta, turns)
  {
    hide Tracking, Searching;
    turns := [];
    if |bars| == 0 {
      return;
    }
    ghost var m := Mids(bars);
    var direction: Option<Direction> := None;
    var hiVal, hiPos := bars[0].Mid2Close(), 0;
    var loVal, loPos := bars[0].Mid2Close(), 0;
    var extremeVal, extremePos := 0, 0;
    SearchStart(m, theta);
    for t := 1 to |bars|
      invariant direction.None? ==>
        && turns == [] && 0 <= hiPos < t && 0 <= loPos < t
        && Searching(m, theta, hiPos, loPos, t) && hiVal == m[hiPos] && loVal == m[loPos]
      invariant direction.Some? ==>
        && 0 <= extremePos < t && extremeVal == m[extremePos]
        && Tracking(m, theta, turns, if direction.value.Up? then Low else High, extremePos, t)
    {
      var v := bars[t].Mid2Close();
      match direction
      case None =>
        SearchFurther(m, theta, hiPos, loPos, t);
        if v > hiVal {
          hiVal, hiPos := v, t;
        }
        if v < loVal {
          loVal, loPos := v, t;
        }
        if v - loVal >= theta {
          turns := turns + [Turn(loPos, Low)];
          assert turns == [Turn(loPos, Low)];
          direction, extremeVal, extremePos := Some(Up), v, t;
        } else if hiVal - v >= theta {
          turns := turns + [Turn(hiPos, High)];
          assert turns == [Turn(hiPos, High)];
          direction, extremeVal, extremePos := Some(Down), v, t;
        }
      case Some(Up) =>
        TrackStep(m, theta, turns, Low, extremePos, t);
        if v > extremeVal {
          extremeVal, extremePos := v, t;
        } else if extremeVal - v >= theta {
          turns := turns + [Turn(extremePos, High)];
          direction, extremeVal, extremePos := Some(Down), v, t;
        }
      case Some(Down) =>
        TrackStep(m, theta, turns, High, extremePos, t);
        if v < extremeVal {
          extremeVal, extremePos := v, t;
        } else if v - extremeVal >= theta {
          turns := turns + [Turn(extremePos, Low)];
          direction, extremeVal, extremePos := Some(Up), v, t;
        }
    }
    if direction.Some? {
      TrackingIsZigzag(m, theta, turns, if direction.value.Up? then Low else High, extremePos);
    } else {
      SearchingIsZigzag(m, theta, hiPos, loPos);
    }
  }

  // --------------------------------------------------- the turns are determined

  /** The reversal that ends a piece comes later than its end and leaves the end extreme until then. */
  lemma Reversal(m: seq<int>, theta: int, turns: seq<Turn>, k: nat) returns (e: nat)
    requires IsZigzag(m, theta, turns) && k < |turns|
    ensures turns[k].pos < e < |m|
    ensures var f := Seen(m, turns[k].kind);
      f[e] - f[turns[k].pos] >= theta && Lowest(f, turns[k].pos, turns[k].pos, e + 1)
  {
    if k + 1 < |turns| {
      e := turns[k + 1].pos;
    } else {
      var f := Seen(m, turns[k].kind);
      e :| turns[k].pos < e < |m| && f[e] - f[turns[k].pos] >= theta;
    }
  }

  lemma SameHead(m: seq<int>, theta: int, x: Turn, y: Turn)
    requires theta >= 1 && IsHead(m, theta, x.kind, x.pos) && IsHead(m, theta, y.kind, y.pos)
    ensures x == y
  {
    var c: nat :| Confirms(m, theta, x.kind, x.pos, c);
    var d: nat :| Confirms(m, theta, y.kind, y.pos, d);
    var f, g := Seen(m, x.kind), Seen(m, y.kind);
    assert c >= d;
    assert c <= d;
    assert x.kind == y.kind;
    assert x.pos == y.pos;
  }

  /** A piece that is not reversed up to `hi` ends before the path does, and its extreme up to there is its end. */
  lemma PieceIsOver(m: seq<int>, theta: int, s: seq<Turn>, k: nat, hi: nat)
    requires IsZigzag(m, theta, s) && k + 1 < |s| && theta >= 1
    requires s[k + 1].pos < hi <= |m| && NoReversal(Seen(m, s[k].kind), theta, s[k].pos, hi)
    ensures hi < |m|
    ensures var f, b := Seen(m, s[k].kind), s[k + 1].pos;
      forall i | b <= i < hi :: f[i] <= f[b]
  {
    var kind, b := s[k].kind, s[k + 1].pos;
    assert s[k + 1].kind == Other(kind) && IsSwing(m, theta, kind, s[k].pos, b);
    var e := Reversal(m, theta, s, k + 1);
    var f, g := Seen(m, kind), Seen(m, Other(kind));
    assert forall i | 0 <= i < |m| :: g[i] == -f[i];
    assert f[b] - f[e] >= theta;
    assert e >= hi;
  }

  /** From the same turn the next one of another list is not later. */
  lemma NextIsNotLater(m: seq<int>, theta: int, s: seq<Turn>, k: nat, b: nat)
    requires theta >= 1 && IsZigzag(m, theta, s) && k + 1 < |s|
    requires IsSwing(m, theta, s[k].kind, s[k].pos, b)
    ensures b <= s[k + 1].pos
  {
    if s[k + 1].pos < b {
      assert IsSwing(m, theta, s[k].kind, s[k].pos, s[k + 1].pos);
      PieceIsOver(m, theta, s, k, b + 1);
    }
  }

  lemma {:induction false} SameTurns(m: seq<int>, theta: int, s: seq<Turn>, t: seq<Turn>, k: nat)
    requires theta >= 1 && IsZigzag(m, theta, s) && IsZigzag(m, theta, t) && k < |s| && k < |t|
    ensures s[k] == t[k]
  {
    if k == 0 {
      SameHead(m, theta, s[0], t[0]);
    } else {
      var j := k - 1;
      SameTurns(m, theta, s, t, j);
      assert s[j + 1].kind == Other(s[j].kind) && IsSwing(m, theta, s[j].kind, s[j].pos, s[j + 1].pos);
      assert t[j + 1].kind == Other(t[j].kind) && IsSwing(m, theta, t[j].kind, t[j].pos, t[j + 1].pos);
      NextIsNotLater(m, theta, s, j, t[k].pos);
      NextIsNotLater(m, theta, t, j, s[k].pos);
    }
  }

  lemma NotLonger(m: seq<int>, theta: int, s: seq<Turn>, t: seq<Turn>)
    requires theta >= 1 && IsZigzag(m, theta, s) && IsZigzag(m, theta, t)
    ensures |s| <= |t|
  {
    if |t| < |s| {
      if t != [] {
        var k := |t| - 1;
        SameTurns(m, theta, s, t, k);
        assert IsSwing(m, theta, s[k].kind, s[k].pos, s[k + 1].pos);
        PieceIsOver(m, theta, s, k, |m|);
      }
    }
  }

  /** There is exactly one zigzag, so the automaton computes it and nothing else satisfies its specification. */
  lemma ZigzagIsUnique(m: seq<int>, theta: int, s: seq<Turn>, t: seq<Turn>)
    requires theta >= 1 && IsZigzag(m, theta, s) && IsZigzag(m, theta, t)
    ensures s == t
  {
    NotLonger(m, theta, s, t);
    NotLonger(m, theta, t, s);
    forall k: nat | k < |s| ensures s[k] == t[k] {
      SameTurns(m, theta, s, t, k);
    }
  }

  // --------------------------------------------------------------- legs and labels

  datatype Leg = Leg(a: nat, b: nat, direction: int, idealMilli: int, realizableMilli: int)

  /** Positions of turns grow and stay inside the path; nothing else is needed to build legs. */
  ghost predicate Increasing(turns: seq<Turn>, n: nat) {
    && (forall k: nat | k < |turns| :: turns[k].pos < n)
    && (forall k: nat | k + 1 < |turns| :: turns[k].pos < turns[k + 1].pos)
  }

  function LegBetween(bars: seq<Bar>, x: Turn, y: Turn): Leg
    requires x.pos < y.pos && y.pos + 1 < |bars|
  {
    var a, b := x.pos, y.pos;
    if x.kind.Low? then
      Leg(a, b, 1, bars[b].bidClose - bars[a].askClose, bars[b + 1].bidOpen - bars[a + 1].askOpen)
    else
      Leg(a, b, -1, bars[a].bidClose - bars[b].askClose, bars[a + 1].bidOpen - bars[b + 1].askOpen)
  }

  function PaintLeg(labels: seq<int>, leg: Leg): (r: seq<int>)
    requires leg.b < |labels|
    ensures |r| == |labels|
    ensures forall i | 0 <= i < |r| :: r[i] == if leg.a < i <= leg.b then leg.direction else labels[i]
  {
    seq(|labels|, i requires 0 <= i < |labels| => if leg.a < i <= leg.b then leg.direction else labels[i])
  }

  /** Whether some leg covers bar `i`. */
  ghost predicate Covered(legs: seq<Leg>, i: int) {
    exists k :: 0 <= k < |legs| && legs[k].a < i <= legs[k].b
  }

  /** The labels are the directions of the legs on the bars they cover, and 0 elsewhere. */
  ghost predicate LabelsOf(legs: seq<Leg>, labels: seq<int>) {
    && (forall k, i | 0 <= k < |legs| && legs[k].a < i <= legs[k].b && i < |labels| :: labels[i] == legs[k].direction)
    && (forall i | 0 <= i < |labels| && !Covered(legs, i) :: labels[i] == 0)
  }

  /** The legs of consecutive turns, leaving out one that ends at the last bar. */
  function LegsOf(bars: seq<Bar>, turns: seq<Turn>): seq<Leg>
    requires forall k: nat | k + 1 < |turns| :: turns[k].pos < turns[k + 1].pos
  {
    if |turns| < 2 then []
    else
      var n := |turns| - 1;
      var legs := LegsOf(bars, turns[..n]);
      if turns[n].pos + 1 >= |bars| then legs else legs + [LegBetween(bars, turns[n - 1], turns[n])]
  }

  method BuildLegs(bars: seq<Bar>, turns: seq<Turn>) returns (legs: seq<Leg>, labels: seq<int>)
    requires Increasing(turns, |bars|)
    ensures legs == LegsOf(bars, turns)
    ensures |labels| == |bars| && LabelsOf(legs, labels)
  {
    legs, labels := [], seq(|bars|, _ => 0);
    if turns == [] {
      return;
    }
    for k := 1 to |turns|
      invariant |labels| == |bars|
      invariant legs == LegsOf(bars, turns[..k])
      invariant forall j | 0 <= j < |legs| :: legs[j].b <= turns[k - 1].pos
      invariant LabelsOf(legs, labels)
    {
      var start, end := turns[k - 1], turns[k];
      assert turns[..k + 1][..k] == turns[..k];
      if end.pos + 1 < |bars| {
        var leg := LegBetween(bars, start, end);
        PaintNextLeg(legs, labels, leg);
        labels := PaintLeg(labels, leg);
        legs := legs + [leg];
      }
    }
    assert turns[..|turns|] == turns;
  }

  lemma PaintNextLeg(legs: seq<Leg>, labels: seq<int>, leg: Leg)
    requires LabelsOf(legs, labels) && leg.b < |labels|
    requires forall j | 0 <= j < |legs| :: legs[j].b <= leg.a
    ensures LabelsOf(legs + [leg], PaintLeg(labels, leg))
  {
    var more := legs + [leg];
    assert more[|legs|] == leg;
    forall i | Covered(legs, i) ensures Covered(more, i) {
      var j :| 0 <= j < |legs| && legs[j].a < i <= legs[j].b;
      assert more[j] == legs[j];
    }
  }

  /** Every turn of a zigzag is followed by a reversal, so the exclusion of the last bar never fires. */
  lemma LastBarExclusionNeverFires(m: seq<int>, theta: int, turns: seq<Turn>, k: nat)
    requires theta >= 1 && IsZigzag(m, theta, turns) && k < |turns|
    ensures turns[k].pos + 1 < |m|
  {
    var e := Reversal(m, theta, turns, k);
  }

  lemma ZigzagIncreases(m: seq<int>, theta: int, turns: seq<Turn>)
    requires theta >= 1 && IsZigzag(m, theta, turns)
    ensures Increasing(turns, |m|)
  {
    forall k: nat | k < |turns| ensures turns[k].pos < |m| {
      LastBarExclusionNeverFires(m, theta, turns, k);
    }
    forall k: nat | k + 1 < |turns| ensures turns[k].pos < turns[k + 1].pos {
      assert IsSwing(m, theta, turns[k].kind, turns[k].pos, turns[k + 1].pos);
    }
  }

  /** Each pair of consecutive turns of a zigzag is one leg. */
  lemma {:induction false} LegPerSwing(bars: seq<Bar>, turns: seq<Turn>)
    requires Increasing(turns, |bars|) && forall k: nat | k < |turns| :: turns[k].pos + 1 < |bars|
    ensures |LegsOf(bars, turns)| == if turns == [] then 0 else |turns| - 1
    ensures forall k: nat | k + 1 < |turns| :: LegsOf(bars, turns)[k] == LegBetween(bars, turns[k], turns[k + 1])
  {
    if |turns| >= 2 {
      var n := |turns| - 1;
      LegPerSwing(bars, turns[..n]);
    }
  }

  /** Legs chain end to start and alternate, and each is an upward or downward move of at least theta. */
  ghost predicate LegsChain(bars: seq<Bar>, theta: int, legs: seq<Leg>) {
    && (forall k: nat | k < |legs| :: IsMove(bars, theta, legs[k]))
    && (forall k: nat | k + 1 < |legs| :: legs[k].b == legs[k + 1].a && legs[k].direction == -legs[k + 1].direction)
  }

  /**
   A leg is a move of at least theta in its direction, whose next bar exists.
   Twice its ideal profit is the move in mid prices less the spreads at both ends.
   */
  ghost predicate IsMove(bars: seq<Bar>, theta: int, leg: Leg) {
    && leg.a < leg.b && leg.b + 1 < |bars| && (leg.direction == 1 || leg.direction == -1)
    && var x, y := bars[leg.a], bars[leg.b];
    var move := if leg.direction == 1 then y.Mid2Close() - x.Mid2Close() else x.Mid2Close() - y.Mid2Close();
    && move >= theta
    && 2 * leg.idealMilli == move - (x.askClose - x.bidClose) - (y.askClose - y.bidClose)
  }

  lemma SwingIsMove(bars: seq<Bar>, theta: int, x: Turn, y: Turn)
    requires IsSwing(Mids(bars), theta, x.kind, x.pos, y.pos) && y.pos + 1 < |bars|
    ensures IsMove(bars, theta, LegBetween(bars, x, y))
    ensures LegBetween(bars, x, y).direction == if x.kind.Low? then 1 else -1
  {
  }

  lemma LegOfSwing(bars: seq<Bar>, theta: int, turns: seq<Turn>, k: nat)
    requires IsZigzag(Mids(bars), theta, turns) && k + 1 < |turns|
    requires turns[k].pos < turns[k + 1].pos && turns[k + 1].pos + 1 < |bars|
    ensures var leg := LegBetween(bars, turns[k], turns[k + 1]);
      && IsMove(bars, theta, leg) && leg.a == turns[k].pos && leg.b == turns[k + 1].pos
      && leg.direction == (if turns[k].kind.Low? then 1 else -1)
    ensures turns[k + 1].kind == Other(turns[k].kind)
  {
    hide IsZigzag, IsSwing, IsMove, Mids;
    SwingAt(Mids(bars), theta, turns, k);
    SwingIsMove(bars, theta, turns[k], turns[k + 1]);
  }

  lemma SwingAt(m: seq<int>, theta: int, turns: seq<Turn>, k: nat)
    requires IsZigzag(m, theta, turns) && k + 1 < |turns|
    ensures turns[k + 1].kind == Other(turns[k].kind)
    ensures IsSwing(m, theta, turns[k].kind, turns[k].pos, turns[k + 1].pos)
  {
  }

  lemma LegsOfZigzag(bars: seq<Bar>, theta: int, turns: seq<Turn>)
    requires theta >= 1 && IsZigzag(Mids(bars), theta, turns)
    ensures Increasing(turns, |bars|)
    ensures |LegsOf(bars, turns)| == if turns == [] then 0 else |turns| - 1
    ensures LegsChain(bars, theta, LegsOf(bars, turns))
  {
    hide IsZigzag, IsMove, LegsOf, LegBetween, Mids, LegsChain;
    var m := Mids(bars);
    ZigzagIncreases(m, theta, turns);
    forall k: nat | k < |turns| ensures turns[k].pos + 1 < |bars| {
      LastBarExclusionNeverFires(m, theta, turns, k);
    }
    LegPerSwing(bars, turns);
    var legs := LegsOf(bars, turns);
    forall k: nat | k < |legs|
      ensures IsMove(bars, theta, legs[k]) && legs[k].a == turns[k].pos && legs[k].b == turns[k + 1].pos
      ensures legs[k].direction == (if turns[k].kind.Low? then 1 else -1) && turns[k + 1].kind == Other(turns[k].kind)
    {
      LegOfSwing(bars, theta, turns, k);
    }
    ChainOf(bars, theta, turns, legs);
  }

  lemma ChainOf(bars: seq<Bar>, theta: int, turns: seq<Turn>, legs: seq<Leg>)
    requires |legs| == if turns == [] then 0 else |turns| - 1
    requires forall k: nat | k < |legs| ::
      && IsMove(bars, theta, legs[k]) && legs[k].a == turns[k].pos && legs[k].b == turns[k + 1].pos
      && legs[k].direction == (if turns[k].kind.Low? then 1 else -1) && turns[k + 1].kind == Other(turns[k].kind)
    ensures LegsChain(bars, theta, legs)
  {
    hide IsMove;
  }

  function SaturatingTheta(thetaPips: int): (theta: int)
    ensures thetaPips >= 1 ==> theta >= 1
  {
    Min(thetaPips * PIP_MID2, I64_MAX)
  }

  lemma CalmHasNoHead(m: seq<int>, theta: int, turns: seq<Turn>)
    requires Calm(m, theta, |m|)
    ensures IsZigzag(m, theta, turns) <==> turns == []
  {
  }

  /**
   The swing size in pips is counted in half milli units. Where that exceeds 64 bits
   and no two mid prices are that far apart, saturation finds the turns all the same:
   none.
   */
  lemma SaturationFindsTheSame(bars: seq<Bar>, thetaPips: int, turns: seq<Turn>)
    requires forall i, j | 0 <= i < |bars| && 0 <= j < |bars| :: bars[i].Mid2Close() - bars[j].Mid2Close() < 0x7FFF_FFFF_FFFF_FFFF
    ensures IsZigzag(Mids(bars), SaturatingTheta(thetaPips), turns) <==> IsZigzag(Mids(bars), 20 * thetaPips, turns)
  {
    var m := Mids(bars);
    if 20 * thetaPips > I64_MAX {
      CalmHasNoHead(m, SaturatingTheta(thetaPips), turns);
      CalmHasNoHead(m, 20 * thetaPips, turns);
    }
  }

  function SumIdeal(legs: seq<Leg>): int {
    if legs == [] then 0 else SumIdeal(legs[..|legs|-1]) + legs[|legs|-1].idealMilli
  }

  function SumRealizable(legs: seq<Leg>): int {
    if legs == [] then 0 else SumRealizable(legs[..|legs|-1]) + legs[|legs|-1].realizableMilli
  }

  /** The profits of a benchmark are sums over its legs, which can be taken in parts. */
  lemma {:induction false} SumsOverLegs(a: seq<Leg>, b: seq<Leg>)
    ensures SumIdeal(a + b) == SumIdeal(a) + SumIdeal(b) && SumRealizable(a + b) == SumRealizable(a) + SumRealizable(b)
    ensures |b| == 1 ==> SumIdeal(b) == b[0].idealMilli && SumRealizable(b) == b[0].realizableMilli
  {
    if b == [] {
      assert a + b == a;
    } else {
      var n := |b| - 1;
      SumsOverLegs(a, b[..n]);
      assert (a + b)[..|a + b| - 1] == a + b[..n];
      if n == 0 {
        assert SumIdeal(b[..0]) == 0 && SumRealizable(b[..0]) == 0;
      }
    }
  }

  datatype Result = Result(thetaPips: int, legs: seq<Leg>, idealMilli: int, realizableMilli: int, labels: seq<int>)

  method Compute(bars: seq<Bar>, thetaPips: int) returns (r: Result)
    requires thetaPips >= 1
    ensures exists turns :: IsZigzag(Mids(bars), SaturatingTheta(thetaPips), turns)
                            && Increasing(turns, |bars|) && r.legs == LegsOf(bars, turns)
    ensures LegsChain(bars, SaturatingTheta(thetaPips), r.legs)
    ensures |r.labels| == |bars| && LabelsOf(r.legs, r.labels)
    ensures r.thetaPips == thetaPips && r.idealMilli == SumIdeal(r.legs) && r.realizableMilli == SumRealizable(r.legs)
  {
    hide IsZigzag;
    var theta := SaturatingTheta(thetaPips);
    var turns := ExtractTurns(bars, theta);
    LegsOfZigzag(bars, theta, turns);
    var legs, labels := BuildLegs(bars, turns);
    r := Result(thetaPips, legs, SumIdeal(legs), SumRealizable(legs), labels);
  }
}

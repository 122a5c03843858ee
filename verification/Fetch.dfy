/**
 The join of bid and ask klines into bars (`crates/sim/src/fetch.rs`). It is what
 makes the bars of a dataset valid and ordered: a time that only one side has, that
 a side has twice, or whose prices do not fit together gives no bar.
 */
module Fetch {
  import opened Wrappers
  import opened Market
  import opened Series
  import opened Sorted

  datatype Kline = Kline(openTime: int, open: int, high: int, low: int, close: int)

  // ------------------------------------------------------------- one side by time

  function CountAt(klines: seq<Kline>, t: int): nat {
    if klines == [] then 0
    else CountAt(klines[..|klines| - 1], t) + if klines[|klines| - 1].openTime == t then 1 else 0
  }

  /** The slot of an open time: the kline itself, or nothing when the time is repeated. */
  ghost predicate IsSlot(klines: seq<Kline>, t: int, slot: Option<Kline>) {
    match slot
    case Some(k) => k in klines && k.openTime == t && CountAt(klines, t) == 1
    case None => CountAt(klines, t) >= 2
  }

  ghost predicate Indexes(klines: seq<Kline>, index: map<int, Option<Kline>>) {
    && (forall t | t in index :: IsSlot(klines, t, index[t]))
    && (forall t | t !in index :: CountAt(klines, t) == 0)
  }

  lemma {:induction false} NoneAt(klines: seq<Kline>, t: int)
    ensures CountAt(klines, t) == 0 <==> forall k | k in klines :: k.openTime != t
  {
    if klines != [] {
      var n := |klines| - 1;
      NoneAt(klines[..n], t);
      assert klines == klines[..n] + [klines[n]];
    }
  }

  lemma IndexNext(klines: seq<Kline>, index: map<int, Option<Kline>>, k: Kline)
    requires Indexes(klines, index)
    ensures Indexes(klines + [k], index[k.openTime := if k.openTime in index then None else Some(k)])
  {
    var more := klines + [k];
    assert more[..|klines|] == klines;
    forall t ensures CountAt(more, t) == CountAt(klines, t) + if k.openTime == t then 1 else 0 {
    }
  }

  method IndexByOpenTime(klines: seq<Kline>) returns (index: map<int, Option<Kline>>)
    ensures Indexes(klines, index)
  {
    hide Indexes;
    index := map[];
    assert Indexes([], index) by {
      NothingIndexed();
    }
    for n := 0 to |klines|
      invariant Indexes(klines[..n], index)
    {
      IndexNext(klines[..n], index, klines[n]);
      assert klines[..n + 1] == klines[..n] + [klines[n]];
      var t := klines[n].openTime;
      index := index[t := if t in index then None else Some(klines[n])];
    }
    assert klines[..|klines|] == klines;
  }

  lemma NothingIndexed()
    ensures Indexes([], map[])
  {
  }

  // ------------------------------------------------------------------- one pair

  predicate IsConsistent(side: Kline) {
    && side.open > 0 && side.high > 0 && side.low > 0 && side.close > 0
    && side.high >= Max(side.open, side.close) && side.low <= Min(side.open, side.close)
  }

  predicate IsValidPair(bid: Kline, ask: Kline) {
    && IsConsistent(bid) && IsConsistent(ask)
    && !(ask.open < bid.open || ask.high < bid.high || ask.low < bid.low || ask.close < bid.close)
  }

  function Joined(t: int, bid: Kline, ask: Kline): Bar {
    Bar(t, bid.open, bid.high, bid.low, bid.close, ask.open, ask.high, ask.low, ask.close)
  }

  /** A pair is accepted exactly when its bar is valid. */
  lemma ValidPairsMakeValidBars(t: int, bid: Kline, ask: Kline)
    ensures IsValidPair(bid, ask) <==> Joined(t, bid, ask).Valid()
  {
  }

  /** The bar has the time, and the four prices of each side. */
  predicate IsJoinOf(bar: Bar, t: int, x: Kline, y: Kline) {
    && bar.openTime == t == x.openTime == y.openTime
    && bar.bidOpen == x.open && bar.bidHigh == x.high && bar.bidLow == x.low && bar.bidClose == x.close
    && bar.askOpen == y.open && bar.askHigh == y.high && bar.askLow == y.low && bar.askClose == y.close
  }

  datatype Fate = Kept(bar: Bar) | OneSided | Invalid

  /** What becomes of an open time, told by how often each side has it and with which prices. */
  ghost predicate HasFate(bid: seq<Kline>, ask: seq<Kline>, t: int, fate: Fate) {
    var b, a := CountAt(bid, t), CountAt(ask, t);
    match fate
    case Kept(bar) =>
      && b == a == 1
      && exists x, y :: x in bid && y in ask && IsJoinOf(bar, t, x, y) && bar.Valid()
    case OneSided => (b == 1 && a == 0) || (b == 0 && a == 1)
    case Invalid =>
      || b >= 2 || a >= 2
      || (b == a == 1 && exists x, y, bar :: x in bid && y in ask && IsJoinOf(bar, t, x, y) && !bar.Valid())
  }

  function FateOf(b: Option<Option<Kline>>, a: Option<Option<Kline>>, t: int): Fate {
    if b == Some(None) || a == Some(None) then Invalid
    else if b.Some? && a.Some? then
      if IsValidPair(b.value.value, a.value.value) then Kept(Joined(t, b.value.value, a.value.value)) else Invalid
    else OneSided
  }

  function Get(index: map<int, Option<Kline>>, t: int): Option<Option<Kline>> {
    if t in index then Some(index[t]) else None
  }

  lemma FateIsRight(bid: seq<Kline>, ask: seq<Kline>, bidMap: map<int, Option<Kline>>, askMap: map<int, Option<Kline>>, t: int)
    requires Indexes(bid, bidMap) && Indexes(ask, askMap) && (t in bidMap || t in askMap)
    ensures HasFate(bid, ask, t, FateOf(Get(bidMap, t), Get(askMap, t), t))
  {
    var b, a := Get(bidMap, t), Get(askMap, t);
    if b.Some? && a.Some? && b.value.Some? && a.value.Some? {
      ValidPairsMakeValidBars(t, b.value.value, a.value.value);
    }
  }

  // ------------------------------------------------------------------ the times

  predicate Before(t: int, u: int) { t < u }

  ghost predicate Increasing(times: seq<int>) { InOrder(times, Before) }

  function Times(klines: seq<Kline>): set<int> { set k | k in klines :: k.openTime }

  /** The open times of the klines in order, each once. */
  method SortedTimes(klines: seq<Kline>) returns (times: seq<int>)
    ensures Increasing(times) && |times| == |Times(klines)| && forall t :: t in times <==> t in Times(klines)
  {
    times := [];
    for n := 0 to |klines|
      invariant Increasing(times) && |times| == |Times(klines[..n])|
      invariant forall t :: t in times <==> t in Times(klines[..n])
    {
      var t := klines[n].openTime;
      assert klines[..n + 1] == klines[..n] + [klines[n]];
      assert Times(klines[..n + 1]) == Times(klines[..n]) + {t};
      if t !in times {
        InsertMembers(times, t, Before);
        InsertKeepsOrder(times, t, Before);
        times := Insert(times, t, Before);
      }
    }
    assert klines[..|klines|] == klines;
  }

  // ------------------------------------------------------------------- the join

  ghost predicate Fates(bid: seq<Kline>, ask: seq<Kline>, times: seq<int>, fates: seq<Fate>) {
    |fates| == |times| && forall i | 0 <= i < |times| :: HasFate(bid, ask, times[i], fates[i])
  }

  function BarsOf(fates: seq<Fate>): seq<Bar> {
    if fates == [] then []
    else
      var f := fates[|fates| - 1];
      BarsOf(fates[..|fates| - 1]) + if f.Kept? then [f.bar] else []
  }

  function CountOneSided(fates: seq<Fate>): nat {
    if fates == [] then 0 else CountOneSided(fates[..|fates| - 1]) + if fates[|fates| - 1].OneSided? then 1 else 0
  }

  function CountInvalid(fates: seq<Fate>): nat {
    if fates == [] then 0 else CountInvalid(fates[..|fates| - 1]) + if fates[|fates| - 1].Invalid? then 1 else 0
  }

  /** `at` are the positions, in order, of the fates that keep a bar. */
  ghost predicate AreTheKept(fates: seq<Fate>, at: seq<nat>) {
    && (forall k | 0 <= k < |at| :: at[k] < |fates|)
    && (forall i: nat | i < |fates| :: i in at <==> fates[i].Kept?)
    && forall j, k | 0 <= j < k < |at| :: at[j] < at[k]
  }

  /** The bars are those of the kept fates, in their order. */
  ghost predicate AreBarsOf(bars: seq<Bar>, fates: seq<Fate>, at: seq<nat>) {
    && AreTheKept(fates, at) && |bars| == |at|
    && forall k | 0 <= k < |at| :: fates[at[k]] == Kept(bars[k])
  }

  lemma OneMoreBar(bars: seq<Bar>, fates: seq<Fate>, at: seq<nat>)
    requires fates != [] && AreBarsOf(bars, fates[..|fates| - 1], at)
    ensures var n := |fates| - 1;
      if fates[n].Kept? then AreBarsOf(bars + [fates[n].bar], fates, at + [n]) else AreBarsOf(bars, fates, at)
  {
    var n := |fates| - 1;
    var front := fates[..n];
    assert forall i | 0 <= i < n :: front[i] == fates[i];
  }

  lemma {:induction false} BarsAreTheKept(fates: seq<Fate>) returns (at: seq<nat>)
    ensures AreBarsOf(BarsOf(fates), fates, at)
  {
    at := [];
    if fates != [] {
      var n := |fates| - 1;
      at := BarsAreTheKept(fates[..n]);
      OneMoreBar(BarsOf(fates[..n]), fates, at);
      hide AreBarsOf;
      if fates[n].Kept? {
        at := at + [n];
      } else {
        assert BarsOf(fates[..n]) + [] == BarsOf(fates[..n]);
      }
    }
  }

  /** The two counts are those of the other fates. */
  lemma {:induction false} CountsAreOfFates(fates: seq<Fate>)
    ensures CountOneSided(fates) == |set i | 0 <= i < |fates| && fates[i].OneSided?|
    ensures CountInvalid(fates) == |set i | 0 <= i < |fates| && fates[i].Invalid?|
  {
    if fates != [] {
      CountsAreOfFates(fates[..|fates| - 1]);
      OneMoreFate(fates);
    }
  }

  lemma OneMoreFate(fates: seq<Fate>)
    requires fates != []
    ensures var n := |fates| - 1;
      var front := fates[..n];
      && |set i | 0 <= i < |fates| && fates[i].OneSided?|
         == |set i | 0 <= i < n && front[i].OneSided?| + (if fates[n].OneSided? then 1 else 0)
      && |set i | 0 <= i < |fates| && fates[i].Invalid?|
         == |set i | 0 <= i < n && front[i].Invalid?| + (if fates[n].Invalid? then 1 else 0)
  {
    var n := |fates| - 1;
    var front := fates[..n];
    var a, b := set i | 0 <= i < n && front[i].OneSided?, set i | 0 <= i < |fates| && fates[i].OneSided?;
    assert b == if fates[n].OneSided? then a + {n} else a;
    var c, d := set i | 0 <= i < n && front[i].Invalid?, set i | 0 <= i < |fates| && fates[i].Invalid?;
    assert d == if fates[n].Invalid? then c + {n} else c;
  }

  datatype JoinOutcome = JoinOutcome(bars: seq<Bar>, oneSided: nat, invalid: nat)

  /** `fates` says, for each open time of either side in order, what became of it. */
  method JoinAndValidate(bid: seq<Kline>, ask: seq<Kline>) returns (o: JoinOutcome, ghost times: seq<int>, ghost fates: seq<Fate>)
    ensures Increasing(times) && (forall t :: t in times <==> t in Times(bid + ask))
    ensures |times| == |Times(bid + ask)|
    ensures Fates(bid, ask, times, fates)
    ensures o == JoinOutcome(BarsOf(fates), CountOneSided(fates), CountInvalid(fates))
    ensures Ascending(o.bars) && forall i | 0 <= i < |o.bars| :: o.bars[i].Valid()
    ensures |o.bars| + o.oneSided + o.invalid == |Times(bid + ask)|
  {
    hide HasFate, Indexes, FateOf, Times, Increasing, Ascending, Get;
    var bidMap := IndexByOpenTime(bid);
    var askMap := IndexByOpenTime(ask);
    var sorted := SortedTimes(bid + ask);
    times, fates := sorted, [];
    var bars: seq<Bar>, oneSided, invalid := [], 0, 0;
    for n := 0 to |sorted|
      invariant Fates(bid, ask, sorted[..n], fates)
      invariant bars == BarsOf(fates) && oneSided == CountOneSided(fates) && invalid == CountInvalid(fates)
    {
      var t := sorted[n];
      assert t in sorted;
      TimesAreIndexed(bid, ask, bidMap, askMap, t);
      FateIsRight(bid, ask, bidMap, askMap, t);
      var fate := FateOf(Get(bidMap, t), Get(askMap, t), t);
      assert (fates + [fate])[..|fates|] == fates;
      fates := fates + [fate];
      match fate {
        case Kept(bar) => bars := bars + [bar];
        case OneSided => oneSided := oneSided + 1;
        case Invalid => invalid := invalid + 1;
      }
    }
    assert sorted[..|sorted|] == sorted;
    EveryTimeHasOneFate(fates);
    BarsAreOrdered(bid, ask, times, fates);
    o := JoinOutcome(bars, oneSided, invalid);
  }

  lemma TimesAreIndexed(
      bid: seq<Kline>, ask: seq<Kline>, bidMap: map<int, Option<Kline>>, askMap: map<int, Option<Kline>>, t: int)
    requires Indexes(bid, bidMap) && Indexes(ask, askMap) && t in Times(bid + ask)
    ensures t in bidMap || t in askMap
  {
    NoneAt(bid, t);
    NoneAt(ask, t);
  }

  lemma {:induction false} EveryTimeHasOneFate(fates: seq<Fate>)
    ensures |BarsOf(fates)| + CountOneSided(fates) + CountInvalid(fates) == |fates|
  {
    if fates != [] {
      EveryTimeHasOneFate(fates[..|fates| - 1]);
    }
  }

  lemma KeptIsValid(bid: seq<Kline>, ask: seq<Kline>, t: int, fate: Fate)
    requires HasFate(bid, ask, t, fate) && fate.Kept?
    ensures fate.bar.Valid() && fate.bar.openTime == t
  {
  }

  lemma AscendingNext(bars: seq<Bar>, bar: Bar)
    requires Ascending(bars) && forall i | 0 <= i < |bars| :: bars[i].openTime < bar.openTime
    ensures Ascending(bars + [bar])
  {
  }

  /** The kept bars are valid and in the order of their times. */
  lemma {:induction false} BarsAreOrdered(bid: seq<Kline>, ask: seq<Kline>, times: seq<int>, fates: seq<Fate>)
    requires Increasing(times) && Fates(bid, ask, times, fates)
    ensures var bars := BarsOf(fates);
      && Ascending(bars)
      && forall i | 0 <= i < |bars| :: bars[i].Valid() && bars[i].openTime in times
  {
    hide HasFate, Ascending, Bar.Valid;
    if fates == [] {
      NoBars();
    } else {
      var n := |fates| - 1;
      assert times == times[..n] + [times[n]];
      BarsAreOrdered(bid, ask, times[..n], fates[..n]);
      var bars := BarsOf(fates[..n]);
      forall i | 0 <= i < |bars| ensures bars[i].openTime < times[n] && bars[i].openTime in times {
        var j :| 0 <= j < n && times[..n][j] == bars[i].openTime;
      }
      if fates[n].Kept? {
        KeptIsValid(bid, ask, times[n], fates[n]);
        AscendingNext(bars, fates[n].bar);
      } else {
        assert bars + [] == bars;
      }
    }
  }

  lemma NoBars()
    ensures Ascending([])
  {
  }
}

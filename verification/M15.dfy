/**
 The M15 candles that `crates/strategy/src/fx_new.rs` builds from the M5 candles
 of one pair, which may come late, twice or not at all.
 */
module M15 {
  import opened RealArith
  import opened Sorted
  import opened Wrappers

  const M15_SECONDS := 900
  const M5_SECONDS := 300

  datatype Candle = Candle(
    timestamp: int, open: real, high: real, low: real, close: real, volume: Option<nat>, bid: Option<real>, ask: Option<real>)

  function BucketOf(c: Candle): int { c.timestamp - c.timestamp % M15_SECONDS }

  function VolumeOf(c: Candle): nat { if c.volume.Some? then c.volume.value else 0 }

  predicate Earlier(c: Candle, d: Candle) { c.timestamp < d.timestamp }

  predicate AllIn(s: seq<Candle>, bucket: int) { forall i | 0 <= i < |s| :: BucketOf(s[i]) == bucket }

  /** Candles of one quarter of an hour in strict time order. */
  predicate InBucket(s: seq<Candle>) { InOrder(s, Earlier) && (s != [] ==> AllIn(s, BucketOf(s[0]))) }

  /** The candle of three candles in time order. */
  function Combined(s: seq<Candle>): Candle
    requires |s| == 3
  {
    Candle(BucketOf(s[0]), s[0].open, MaxR(s[0].high, MaxR(s[1].high, s[2].high)), MinR(s[0].low, MinR(s[1].low, s[2].low)),
           s[2].close, Some(VolumeOf(s[0]) + VolumeOf(s[1]) + VolumeOf(s[2])), s[2].bid, s[2].ask)
  }

  /**
   The candle of a quarter opens with the first and closes with the last, reaches
   just as far as the three, adds up their volumes, and has the last quotes.
   */
  lemma CombinedSumsUp(s: seq<Candle>)
    requires |s| == 3
    ensures var m := Combined(s);
      && m.timestamp % 900 == 0 && m.timestamp <= s[0].timestamp < m.timestamp + 900
      && m.open == s[0].open && m.close == s[2].close && m.bid == s[2].bid && m.ask == s[2].ask
      && (forall k | 0 <= k < 3 :: m.low <= s[k].low && s[k].high <= m.high)
      && (exists k :: 0 <= k < 3 && m.high == s[k].high) && (exists k :: 0 <= k < 3 && m.low == s[k].low)
      && m.volume == Some((if s[0].volume.Some? then s[0].volume.value else 0)
                          + (if s[1].volume.Some? then s[1].volume.value else 0)
                          + (if s[2].volume.Some? then s[2].volume.value else 0))
  {
    var m := Combined(s);
    assert m.high == s[0].high || m.high == s[1].high || m.high == s[2].high;
    assert m.low == s[0].low || m.low == s[1].low || m.low == s[2].low;
  }

  function InsertByTime(s: seq<Candle>, c: Candle): (r: seq<Candle>)
    ensures |r| == |s| + 1
  {
    Insert(s, c, Earlier)
  }

  lemma InsertInBucket(s: seq<Candle>, c: Candle)
    requires InBucket(s) && !Repeats(s, c) && (s != [] ==> BucketOf(s[0]) == BucketOf(c))
    ensures InBucket(InsertByTime(s, c)) && AllIn(InsertByTime(s, c), BucketOf(c))
    ensures forall x :: x in InsertByTime(s, c) <==> x == c || x in s
  {
    hide BucketOf, InOrder;
    InsertMembers(s, c, Earlier);
    InsertKeepsOrder(s, c, Earlier);
    var r := InsertByTime(s, c);
    hide InsertByTime;
    forall i | 0 <= i < |r| ensures BucketOf(r[i]) == BucketOf(c) {
      assert r[i] in r;
    }
  }

  /** What is kept of the pending candles when `c` comes: nothing of another quarter. */
  function Kept(pending: seq<Candle>, c: Candle): seq<Candle> {
    if pending != [] && BucketOf(pending[0]) != BucketOf(c) then [] else pending
  }

  predicate Repeats(kept: seq<Candle>, c: Candle) {
    exists i | 0 <= i < |kept| :: kept[i].timestamp == c.timestamp
  }

  class Aggregator {
    var pending: seq<Candle>

    predicate Valid()
      reads this
    {
      InBucket(pending) && |pending| <= 2
    }

    constructor ()
      ensures Valid() && pending == []
    {
      pending := [];
    }

    /**
     Takes an M5 candle. One of a new quarter drops what was pending, a repeated
     one is ignored, and the third of a quarter completes it.
     */
    method AggregateM15(c: Candle) returns (m15: Option<Candle>)
      requires Valid()
      modifies this
      ensures Valid()
      ensures var kept := Kept(old(pending), c);
        if Repeats(kept, c) then m15 == None && pending == kept
        else if |kept| < 2 then m15 == None && pending == InsertByTime(kept, c)
        else m15 == Some(Combined(InsertByTime(kept, c))) && pending == []
    {
      var bucket := BucketOf(c);
      if pending != [] && BucketOf(pending[0]) != bucket {
        pending := [];
      }
      if Repeats(pending, c) {
        return None;
      }
      InsertInBucket(pending, c);
      pending := InsertByTime(pending, c);
      if |pending| != 3 {
        return None;
      }
      var first, last := pending[0], pending[2];
      var high := MaxR(pending[0].high, MaxR(pending[1].high, pending[2].high));
      var low := MinR(pending[0].low, MinR(pending[1].low, pending[2].low));
      var volume := VolumeOf(pending[0]) + VolumeOf(pending[1]) + VolumeOf(pending[2]);
      m15 := Some(Candle(bucket, first.open, high, low, last.close, Some(volume), last.bid, last.ask));
      pending := [];
    }
  }

  /** The pending candles after a stream, and the candles it has completed with their parts. */
  datatype State = State(pending: seq<Candle>, parts: seq<seq<Candle>>)

  function Next(s: State, c: Candle): State {
    var kept := Kept(s.pending, c);
    if Repeats(kept, c) then s.(pending := kept)
    else if |kept| < 2 then s.(pending := InsertByTime(kept, c))
    else State([], s.parts + [InsertByTime(kept, c)])
  }

  function After(stream: seq<Candle>): State {
    if stream == [] then State([], []) else Next(After(stream[..|stream| - 1]), stream[|stream| - 1])
  }

  method Run(stream: seq<Candle>) returns (m15s: seq<Candle>)
    ensures |m15s| == |After(stream).parts|
    ensures forall k | 0 <= k < |m15s| :: |After(stream).parts[k]| == 3 && m15s[k] == Combined(After(stream).parts[k])
  {
    var a := new Aggregator();
    m15s := [];
    for n := 0 to |stream|
      invariant fresh(a) && a.Valid() && a.pending == After(stream[..n]).pending
      invariant |m15s| == |After(stream[..n]).parts|
      invariant forall k | 0 <= k < |m15s| ::
        |After(stream[..n]).parts[k]| == 3 && m15s[k] == Combined(After(stream[..n]).parts[k])
    {
      hide InBucket, Combined, InsertByTime, Kept, Repeats;
      assert stream[..n + 1][..n] == stream[..n] && stream[..n + 1][n] == stream[n];
      var m15 := a.AggregateM15(stream[n]);
      if m15.Some? {
        m15s := m15s + [m15.value];
      }
    }
    assert stream[..|stream|] == stream;
  }

  predicate OnGrid(stream: seq<Candle>) { forall i | 0 <= i < |stream| :: stream[i].timestamp % M5_SECONDS == 0 }

  /** The three M5 candles of a quarter of an hour. */
  predicate IsQuarter(parts: seq<Candle>) {
    |parts| == 3 && forall k | 0 <= k < 3 :: parts[k].timestamp == BucketOf(parts[0]) + k * M5_SECONDS
  }

  lemma OnGridInBucket(t: int, b: int) returns (k: int)
    requires t % M5_SECONDS == 0 && t - t % M15_SECONDS == b
    ensures t == b + k * M5_SECONDS && 0 <= k < 3
  {
    var q := t / M5_SECONDS;
    k := q % 3;
    assert t == M15_SECONDS * (q / 3) + M5_SECONDS * k;
  }

  lemma ThreeOnTheGrid(parts: seq<Candle>)
    requires |parts| == 3 && InBucket(parts) && OnGrid(parts)
    ensures IsQuarter(parts)
  {
    var b := BucketOf(parts[0]);
    var i := OnGridInBucket(parts[0].timestamp, b);
    var j := OnGridInBucket(parts[1].timestamp, b);
    var k := OnGridInBucket(parts[2].timestamp, b);
    hide BucketOf;
    assert i == 0 && j == 1 && k == 2;
  }

  /** Pending candles of one quarter, and whole quarters completed, all of them from the stream. */
  predicate WholeQuarters(s: State, stream: seq<Candle>) {
    && InBucket(s.pending) && |s.pending| <= 2 && From(s.pending, stream)
    && forall k | 0 <= k < |s.parts| :: IsQuarter(s.parts[k]) && From(s.parts[k], stream)
  }

  predicate From(s: seq<Candle>, stream: seq<Candle>) { forall i | 0 <= i < |s| :: s[i] in stream }

  lemma NextIsWhole(s: State, stream: seq<Candle>, c: Candle)
    requires WholeQuarters(s, stream) && OnGrid(stream) && c.timestamp % M5_SECONDS == 0
    ensures WholeQuarters(Next(s, c), stream + [c])
  {
    var kept := Kept(s.pending, c);
    assert InBucket(kept) && From(kept, stream);
    assert forall k | 0 <= k < |s.parts| :: From(s.parts[k], stream + [c]);
    if !Repeats(kept, c) {
      InsertInBucket(kept, c);
      var r := InsertByTime(kept, c);
      forall i | 0 <= i < |r| ensures r[i] in stream + [c] && r[i].timestamp % M5_SECONDS == 0 {
        assert r[i] in r;
        assert r[i] != c ==> r[i] in kept;
      }
      if |kept| == 2 {
        ThreeOnTheGrid(r);
      }
    }
  }

  /**
   Whatever the order, the gaps and the repetitions of the M5 candles, every M15
   candle is made of the three of its quarter, taken from the stream.
   */
  lemma {:induction false} EveryM15IsAWholeQuarter(stream: seq<Candle>)
    requires OnGrid(stream)
    ensures WholeQuarters(After(stream), stream)
  {
    hide WholeQuarters, Next;
    if stream == [] {
      NothingPending();
    } else {
      var n := |stream| - 1;
      EveryM15IsAWholeQuarter(stream[..n]);
      NextIsWhole(After(stream[..n]), stream[..n], stream[n]);
      assert stream == stream[..n] + [stream[n]];
    }
  }

  lemma NothingPending()
    ensures After([]) == State([], []) && WholeQuarters(State([], []), [])
  {
  }

  // ------------------------------------------------ which quarters are completed

  predicate HasTime(stream: seq<Candle>, t: int) { exists i | 0 <= i < |stream| :: stream[i].timestamp == t }

  predicate HasQuarter(stream: seq<Candle>, b: int) {
    HasTime(stream, b) && HasTime(stream, b + M5_SECONDS) && HasTime(stream, b + 2 * M5_SECONDS)
  }

  predicate IsCompleted(parts: seq<seq<Candle>>, b: int) {
    exists k | 0 <= k < |parts| :: |parts[k]| == 3 && parts[k][0].timestamp == b
  }

  /** From `i` to `j` all candles are of the quarter `b`, and all three of it are there. */
  predicate WholeAt(stream: seq<Candle>, b: int, i: nat, j: nat) {
    i <= j <= |stream| && AllIn(stream[i..j], b) && HasQuarter(stream[i..j], b)
  }

  /** At some place the three candles of quarter `b` come with none of another quarter in between. */
  ghost predicate WholeInOnePlace(stream: seq<Candle>, b: int) {
    exists i: nat, j: nat :: WholeAt(stream, b, i, j)
  }

  predicate EndsWith(stream: seq<Candle>, run: seq<Candle>) {
    |run| <= |stream| && run == stream[|stream| - |run|..]
  }

  /** The candles at the end of a stream that are all of one quarter. */
  function LastRun(stream: seq<Candle>): seq<Candle> {
    if stream == [] then [] else NextRun(LastRun(stream[..|stream| - 1]), stream[|stream| - 1])
  }

  function NextRun(run: seq<Candle>, c: Candle): seq<Candle> {
    SameRun(run, c) + [c]
  }

  function SameRun(run: seq<Candle>, c: Candle): seq<Candle> {
    if run != [] && BucketOf(run[0]) == BucketOf(c) then run else []
  }

  /** The run at the end of a stream is all of the quarter of its last candle. */
  predicate RunOfLast(stream: seq<Candle>, run: seq<Candle>)
    requires stream != []
  {
    var b := BucketOf(stream[|stream| - 1]);
    EndsWith(stream, run) && run != [] && BucketOf(run[0]) == b && AllIn(run, b)
  }

  lemma {:induction false} LastRunEnds(stream: seq<Candle>)
    ensures if stream == [] then LastRun(stream) == [] else RunOfLast(stream, LastRun(stream))
  {
    if stream != [] {
      var n := |stream| - 1;
      LastRunEnds(stream[..n]);
      hide RunOfLast;
      NextRunEnds(stream, LastRun(stream[..n]));
    }
  }

  lemma NextRunEnds(stream: seq<Candle>, run: seq<Candle>)
    requires stream != []
    requires var front := stream[..|stream| - 1]; if front == [] then run == [] else RunOfLast(front, run)
    ensures RunOfLast(stream, NextRun(run, stream[|stream| - 1]))
  {
    hide BucketOf, EndsWith;
    LongerEnd(stream, run);
    LongerEnd(stream, []);
  }

  lemma LongerEnd(stream: seq<Candle>, run: seq<Candle>)
    requires stream != [] && (run == [] || EndsWith(stream[..|stream| - 1], run))
    ensures EndsWith(stream, run + [stream[|stream| - 1]])
  {
  }

  /** What is pending is of the last run, and all of it unless its quarter has been completed. */
  ghost predicate RunIsPending(s: State, run: seq<Candle>) {
    if run == [] then s.pending == []
    else PendingOf(s.parts, s.pending, run, BucketOf(run[0]))
  }

  ghost predicate PendingOf(parts: seq<seq<Candle>>, pending: seq<Candle>, run: seq<Candle>, b: int) {
    && AllIn(run, b) && AllIn(pending, b) && From(pending, run)
    && (IsCompleted(parts, b) || forall i | 0 <= i < |run| :: HasTime(pending, run[i].timestamp))
  }

  lemma TwoAreNoQuarter(s: seq<Candle>, b: int)
    requires |s| <= 2
    ensures !HasQuarter(s, b)
  {
  }

  lemma InQuarter(b: int, c: Candle)
    requires b % M15_SECONDS == 0 && b <= c.timestamp < b + M15_SECONDS
    ensures BucketOf(c) == b
  {
  }

  /** A whole quarter that is all pending would be three pending candles. */
  lemma PendingIsNotWhole(run: seq<Candle>, pending: seq<Candle>, b: int)
    requires |pending| <= 2 && forall i | 0 <= i < |run| :: HasTime(pending, run[i].timestamp)
    ensures !HasQuarter(run, b)
  {
    TwoAreNoQuarter(pending, b);
  }

  lemma KeptIsOfTheRun(s: State, run: seq<Candle>, c: Candle)
    requires RunIsPending(s, run)
    ensures PendingOf(s.parts, Kept(s.pending, c), SameRun(run, c), BucketOf(c))
  {
    hide BucketOf, IsCompleted, HasTime;
  }

  /** The third candle of a quarter makes it whole. */
  lemma ThirdOfQuarter(kept: seq<Candle>, c: Candle, stream: seq<Candle>)
    requires InBucket(kept) && AllIn(kept, BucketOf(c)) && |kept| == 2 && !Repeats(kept, c)
    requires From(kept, stream) && OnGrid(stream + [c])
    ensures IsQuarter(InsertByTime(kept, c)) && InsertByTime(kept, c)[0].timestamp == BucketOf(c)
  {
    InsertInBucket(kept, c);
    var r, all := InsertByTime(kept, c), stream + [c];
    hide InsertByTime, BucketOf, InBucket;
    assert all[|stream|] == c;
    forall i | 0 <= i < |r| ensures r[i].timestamp % M5_SECONDS == 0 {
      assert r[i] in r;
      assert r[i] != c ==> r[i] in kept;
      assert r[i] in all;
    }
    ThreeOnTheGrid(r);
  }

  lemma MoreOnce(parts: seq<seq<Candle>>, r: seq<Candle>)
    requires OncePerQuarter(parts) && |r| == 3 && !IsCompleted(parts, r[0].timestamp)
    ensures OncePerQuarter(parts + [r])
  {
  }

  lemma PendingHasTimes(kept: seq<Candle>, c: Candle)
    requires InBucket(kept) && AllIn(kept, BucketOf(c)) && !Repeats(kept, c)
    ensures AllIn(InsertByTime(kept, c), BucketOf(c)) && HasTime(InsertByTime(kept, c), c.timestamp)
    ensures forall t | HasTime(kept, t) :: HasTime(InsertByTime(kept, c), t)
  {
    InsertInBucket(kept, c);
    var r := InsertByTime(kept, c);
    hide InsertByTime, BucketOf, InBucket, AllIn;
    assert c in r;
    forall t | HasTime(kept, t) ensures HasTime(r, t) {
      var i :| 0 <= i < |kept| && kept[i].timestamp == t;
      assert kept[i] in r;
    }
  }

  lemma NextIsPending(s: State, run: seq<Candle>, c: Candle)
    requires InBucket(s.pending) && |s.pending| <= 2 && RunIsPending(s, run) && OnGrid(run + [c])
    ensures RunIsPending(Next(s, c), NextRun(run, c))
    ensures Next(s, c).parts == s.parts ||
      exists r: seq<Candle> :: Next(s, c).parts == s.parts + [r] && IsQuarter(r) && From(r, NextRun(run, c)) && r[0].timestamp == BucketOf(c)
  {
    var kept, same, b := Kept(s.pending, c), SameRun(run, c), BucketOf(c);
    KeptIsOfTheRun(s, run, c);
    assert InBucket(kept);
    assert (run + [c])[|run|] == c && (same + [c])[|same|] == c;
    assert OnGrid(same + [c]) by {
      assert same == run || same == [];
    }
    if !Repeats(kept, c) {
      InsertInBucket(kept, c);
      var r := InsertByTime(kept, c);
      hide InBucket, OnGrid, InsertByTime, BucketOf;
      assert From(r, same + [c]) by {
        forall i | 0 <= i < |r| ensures r[i] in same + [c] {
          assert r[i] in r;
          assert r[i] != c ==> r[i] in kept;
        }
      }
      if |kept| < 2 {
        PendingHasTimes(kept, c);
      } else {
        ThirdOfQuarter(kept, c, same);
        assert (s.parts + [r])[|s.parts|][0].timestamp == b;
      }
    }
    hide BucketOf, InsertByTime, InBucket, From, IsQuarter, OnGrid, IsCompleted;
  }

  /** A candle completes a quarter exactly when the run that it ends holds the whole quarter, unless that was completed. */
  lemma NextCompletesExactlyWhen(s: State, run: seq<Candle>, c: Candle, b: int)
    requires InBucket(s.pending) && |s.pending| <= 2 && RunIsPending(s, run) && OnGrid(run + [c])
    requires |Next(s, c).pending| <= 2 && b % M15_SECONDS == 0
    ensures IsCompleted(Next(s, c).parts, b) <==> IsCompleted(s.parts, b) || HasQuarter(NextRun(run, c), b)
  {
    NextIsPending(s, run, c);
    var t, next := Next(s, c), NextRun(run, c);
    hide InBucket, OnGrid, Next, NextRun, HasQuarter, IsCompleted, RunIsPending;
    if t.parts != s.parts {
      var r: seq<Candle> :| t.parts == s.parts + [r] && IsQuarter(r) && From(r, next) && r[0].timestamp == BucketOf(c);
      OneMorePart(s.parts, r, b);
      QuarterFrom(r, next);
    }
    WholeRunIsCompleted(t, next, b);
  }

  lemma QuarterFrom(r: seq<Candle>, run: seq<Candle>)
    requires IsQuarter(r) && From(r, run)
    ensures HasQuarter(run, r[0].timestamp)
  {
    assert r[0] in run && r[1] in run && r[2] in run;
  }

  lemma WholeRunIsCompleted(s: State, run: seq<Candle>, b: int)
    requires RunIsPending(s, run) && |s.pending| <= 2 && b % M15_SECONDS == 0
    ensures HasQuarter(run, b) ==> IsCompleted(s.parts, b)
  {
    if HasQuarter(run, b) {
      var i :| 0 <= i < |run| && run[i].timestamp == b;
      InQuarter(b, run[i]);
      hide BucketOf;
      if !IsCompleted(s.parts, b) {
        PendingIsNotWhole(run, s.pending, b);
      }
    }
  }

  lemma OneMorePart(parts: seq<seq<Candle>>, part: seq<Candle>, b: int)
    requires |part| == 3
    ensures IsCompleted(parts + [part], b) <==> IsCompleted(parts, b) || part[0].timestamp == b
  {
    var more := parts + [part];
    assert more[|parts|] == part;
    assert forall k | 0 <= k < |parts| :: more[k] == parts[k];
  }

  predicate WholeRunAt(stream: seq<Candle>, b: int, n: nat) { n <= |stream| && HasQuarter(LastRun(stream[..n]), b) }

  ghost predicate WholeRun(stream: seq<Candle>, b: int) {
    exists n: nat :: WholeRunAt(stream, b, n)
  }

  lemma {:induction false} CompletedExactlyWhenRun(stream: seq<Candle>, b: int)
    requires OnGrid(stream) && b % M15_SECONDS == 0
    ensures RunIsPending(After(stream), LastRun(stream))
    ensures IsCompleted(After(stream).parts, b) <==> WholeRun(stream, b)
  {
    EveryM15IsAWholeQuarter(stream);
    if stream == [] {
      NothingPending();
    } else {
      var n := |stream| - 1;
      var front, c := stream[..n], stream[n];
      CompletedExactlyWhenRun(front, b);
      EveryM15IsAWholeQuarter(front);
      LastRunOnGrid(stream);
      NextIsPending(After(front), LastRun(front), c);
      NextCompletesExactlyWhen(After(front), LastRun(front), c, b);
      LongerRun(stream, b);
    }
  }

  lemma LastRunOnGrid(stream: seq<Candle>)
    requires OnGrid(stream) && stream != []
    ensures OnGrid(LastRun(stream[..|stream| - 1]) + [stream[|stream| - 1]])
  {
    LastRunEnds(stream[..|stream| - 1]);
  }

  lemma LongerRun(stream: seq<Candle>, b: int)
    requires stream != []
    ensures WholeRun(stream, b) <==> WholeRun(stream[..|stream| - 1], b) || HasQuarter(LastRun(stream), b)
  {
    hide LastRun, HasQuarter;
    var front := stream[..|stream| - 1];
    assert stream[..|stream|] == stream;
    if n: nat :| WholeRunAt(stream, b, n) {
      assert n < |stream| ==> front[..n] == stream[..n];
      assert n < |stream| ==> WholeRunAt(front, b, n);
    }
    if n: nat :| WholeRunAt(front, b, n) {
      assert stream[..n] == front[..n];
      assert WholeRunAt(stream, b, n);
    }
    if HasQuarter(LastRun(stream), b) {
      assert WholeRunAt(stream, b, |stream|);
    }
  }

  /** The last run holds every stretch of one quarter at the end of the stream. */
  lemma {:induction false} RunHoldsStretch(stream: seq<Candle>, i: nat, b: int)
    requires i < |stream| && forall k | i <= k < |stream| :: BucketOf(stream[k]) == b
    ensures |stream| - i <= |LastRun(stream)|
  {
    hide BucketOf;
    var n := |stream| - 1;
    if i < n {
      RunHoldsStretch(stream[..n], i, b);
      LastRunEnds(stream[..n]);
    }
  }

  lemma RunIsAPlace(stream: seq<Candle>, n: nat, b: int)
    requires b % M15_SECONDS == 0 && WholeRunAt(stream, b, n)
    ensures WholeInOnePlace(stream, b)
  {
    var front := stream[..n];
    var run := LastRun(front);
    var k :| 0 <= k < |run| && run[k].timestamp == b;
    InQuarter(b, run[k]);
    hide HasQuarter, LastRun, BucketOf;
    LastRunEnds(front);
    assert front != [] && AllIn(run, b);
    hide AllIn;
    assert stream[n - |run|..n] == front[n - |run|..];
    assert WholeAt(stream, b, n - |run|, n);
    hide WholeAt;
  }

  lemma TimesOfLonger(part: seq<Candle>, run: seq<Candle>, b: int)
    requires EndsWith(run, part) && HasQuarter(part, b)
    ensures HasQuarter(run, b)
  {
    var d := |run| - |part|;
    assert run[d..] == part;
    forall t | HasTime(part, t) ensures HasTime(run, t) {
      var k :| 0 <= k < |part| && part[k].timestamp == t;
      assert run[d + k] == part[k];
    }
  }

  lemma BothEnds(stream: seq<Candle>, run: seq<Candle>, part: seq<Candle>)
    requires EndsWith(stream, run) && EndsWith(stream, part) && |part| <= |run|
    ensures EndsWith(run, part)
  {
  }

  lemma PlaceIsInARun(stream: seq<Candle>, i: nat, j: nat, b: int)
    requires WholeAt(stream, b, i, j)
    ensures WholeRunAt(stream, b, j)
  {
    var front, part := stream[..j], stream[i..j];
    forall k | i <= k < j ensures BucketOf(front[k]) == b {
      assert part[k - i] == front[k];
    }
    hide BucketOf, HasQuarter, LastRun;
    if i < j {
      RunHoldsStretch(front, i, b);
    }
    LastRunEnds(front);
    assert EndsWith(front, part);
    BothEnds(front, LastRun(front), part);
    TimesOfLonger(part, LastRun(front), b);
  }

  lemma RunsArePlaces(stream: seq<Candle>, b: int)
    requires b % M15_SECONDS == 0
    ensures WholeRun(stream, b) <==> WholeInOnePlace(stream, b)
  {
    hide WholeRunAt, WholeAt, LastRun;
    if n: nat :| WholeRunAt(stream, b, n) {
      RunIsAPlace(stream, n, b);
    }
    if i: nat, j: nat :| WholeAt(stream, b, i, j) {
      PlaceIsInARun(stream, i, j, b);
    }
  }

  lemma CompletedIsWhole(s: State, stream: seq<Candle>, b: int)
    requires WholeQuarters(s, stream) && IsCompleted(s.parts, b)
    ensures b % M15_SECONDS == 0 && HasQuarter(stream, b)
  {
    var k :| 0 <= k < |s.parts| && |s.parts[k]| == 3 && s.parts[k][0].timestamp == b;
    var part := s.parts[k];
    assert IsQuarter(part) && From(part, stream);
    assert part[0] in stream && part[1] in stream && part[2] in stream;
  }

  /**
   Whatever the order, the gaps and the repetitions, a quarter is completed exactly
   when its three candles come at some place with none of another quarter in between.
   */
  lemma CompletedExactlyWhen(stream: seq<Candle>, b: int)
    requires OnGrid(stream) && b % M15_SECONDS == 0
    ensures IsCompleted(After(stream).parts, b) <==> WholeInOnePlace(stream, b)
  {
    CompletedExactlyWhenRun(stream, b);
    RunsArePlaces(stream, b);
  }

  // --------------------------------------------------------- at most one candle

  ghost predicate NoTimeTwice(stream: seq<Candle>) {
    forall i, j | 0 <= i < j < |stream| :: stream[i].timestamp != stream[j].timestamp
  }

  ghost predicate OncePerQuarter(parts: seq<seq<Candle>>) {
    forall j, k | 0 <= j < k < |parts| && |parts[j]| == |parts[k]| == 3 :: parts[j][0].timestamp != parts[k][0].timestamp
  }

  lemma TimeTwice(stream: seq<Candle>, c: Candle)
    requires HasTime(stream, c.timestamp)
    ensures !NoTimeTwice(stream + [c])
  {
    var i :| 0 <= i < |stream| && stream[i].timestamp == c.timestamp;
    assert (stream + [c])[i] == stream[i] && (stream + [c])[|stream|] == c;
  }

  lemma NextIsOnce(s: State, stream: seq<Candle>, c: Candle)
    requires WholeQuarters(s, stream) && OncePerQuarter(s.parts)
    requires OnGrid(stream + [c]) && NoTimeTwice(stream + [c])
    ensures OncePerQuarter(Next(s, c).parts)
  {
    var kept := Kept(s.pending, c);
    if !Repeats(kept, c) && |kept| == 2 {
      var b := BucketOf(c);
      assert InBucket(kept) && From(kept, stream);
      ThirdOfQuarter(kept, c, stream);
      if IsCompleted(s.parts, b) {
        CompletedIsWhole(s, stream, b);
        assert (stream + [c])[|stream|] == c;
        var k := OnGridInBucket(c.timestamp, b);
        assert k == 0 || k == 1 || k == 2;
        TimeTwice(stream, c);
        assert false;
      }
      MoreOnce(s.parts, InsertByTime(kept, c));
    }
  }

  lemma {:induction false} QuartersAreCompletedOnce(stream: seq<Candle>)
    requires OnGrid(stream) && NoTimeTwice(stream)
    ensures OncePerQuarter(After(stream).parts)
  {
    hide Next, WholeQuarters;
    if stream != [] {
      var n := |stream| - 1;
      assert stream == stream[..n] + [stream[n]];
      QuartersAreCompletedOnce(stream[..n]);
      EveryM15IsAWholeQuarter(stream[..n]);
      NextIsOnce(After(stream[..n]), stream[..n], stream[n]);
    }
  }

  /**
   A stream in time order completes every quarter whose three candles it holds,
   once, and no other.
   */
  lemma CompletedInOrder(stream: seq<Candle>)
    requires OnGrid(stream) && InOrder(stream, Earlier)
    ensures forall b | b % M15_SECONDS == 0 :: IsCompleted(After(stream).parts, b) <==> HasQuarter(stream, b)
    ensures OncePerQuarter(After(stream).parts)
  {
    assert NoTimeTwice(stream) by {
      assert forall i, j | 0 <= i < j < |stream| :: Earlier(stream[i], stream[j]);
    }
    QuartersAreCompletedOnce(stream);
    EveryM15IsAWholeQuarter(stream);
    forall b | b % M15_SECONDS == 0 ensures IsCompleted(After(stream).parts, b) <==> HasQuarter(stream, b) {
      if IsCompleted(After(stream).parts, b) {
        CompletedIsWhole(After(stream), stream, b);
      }
      if HasQuarter(stream, b) {
        CompletedExactlyWhen(stream, b);
        InOnePlace(stream, b);
      }
    }
  }

  lemma InOnePlace(stream: seq<Candle>, b: int)
    requires InOrder(stream, Earlier) && b % M15_SECONDS == 0 && HasQuarter(stream, b)
    ensures WholeInOnePlace(stream, b)
  {
    hide InOrder, WholeAt;
    var i: nat :| i < |stream| && stream[i].timestamp == b;
    var j: nat :| j < |stream| && stream[j].timestamp == b + M5_SECONDS;
    var k: nat :| k < |stream| && stream[k].timestamp == b + 2 * M5_SECONDS;
    TimesInOrder(stream, i, j);
    TimesInOrder(stream, j, k);
    hide HasQuarter, HasTime;
    PlaceOf(stream, b, i, j, k);
  }

  lemma PlaceOf(stream: seq<Candle>, b: int, i: nat, j: nat, k: nat)
    requires InOrder(stream, Earlier) && b % M15_SECONDS == 0 && i < j < k < |stream|
    requires stream[i].timestamp == b && stream[j].timestamp == b + M5_SECONDS && stream[k].timestamp == b + 2 * M5_SECONDS
    ensures WholeAt(stream, b, i, k + 1)
  {
    AllBetween(stream, i, k, b);
    hide InOrder, AllIn, HasTime;
    TimeInPart(stream, i, i, k + 1);
    TimeInPart(stream, i, j, k + 1);
    TimeInPart(stream, i, k, k + 1);
  }

  lemma TimeInPart(stream: seq<Candle>, i: nat, j: nat, n: nat)
    requires i <= j < n <= |stream|
    ensures HasTime(stream[i..n], stream[j].timestamp)
  {
    assert stream[i..n][j - i] == stream[j];
  }

  lemma AllBetween(stream: seq<Candle>, i: nat, k: nat, b: int)
    requires InOrder(stream, Earlier) && b % M15_SECONDS == 0 && i <= k < |stream|
    requires stream[i].timestamp == b && stream[k].timestamp < b + M15_SECONDS
    ensures AllIn(stream[i..k + 1], b)
  {
    hide InOrder, BucketOf;
    forall x | i <= x <= k ensures BucketOf(stream[x]) == b {
      TimesInOrder(stream, i, x);
      TimesInOrder(stream, x, k);
      InQuarter(b, stream[x]);
    }
  }

  lemma TimesInOrder(stream: seq<Candle>, i: nat, j: nat)
    requires InOrder(stream, Earlier) && i < |stream| && j < |stream|
    ensures i < j <==> stream[i].timestamp < stream[j].timestamp
  {
    assert i < j ==> Earlier(stream[i], stream[j]);
    assert j < i ==> Earlier(stream[j], stream[i]);
  }

  /** A quarter that comes again after it was completed is completed again. */
  lemma AReplayedQuarter(q: seq<Candle>)
    requires IsQuarter(q)
    ensures After(q + q).parts == [q, q]
  {
    assert |q| == 3;
    hide IsQuarter, After;
    var all := q + q;
    NothingPending();
    assert all[..0] == [] && all[..6] == all;
    AfterQuarter(all, 0, q);
    AfterQuarter(all, 3, q);
    assert [] + [q] == [q] && [q] + [q] == [q, q];
  }

  /** A quarter in time order, with nothing pending before it, is completed at its third candle. */
  lemma AfterQuarter(stream: seq<Candle>, n: nat, q: seq<Candle>)
    requires IsQuarter(q) && n + 3 <= |stream| && After(stream[..n]).pending == []
    requires stream[n] == q[0] && stream[n + 1] == q[1] && stream[n + 2] == q[2]
    ensures After(stream[..n + 3]) == State([], After(stream[..n]).parts + [q])
  {
    hide Next, After, IsQuarter;
    AfterThree(stream, n);
    QuarterAgain(After(stream[..n]), q);
  }

  lemma AfterThree(stream: seq<Candle>, n: nat)
    requires n + 3 <= |stream|
    ensures After(stream[..n + 3]) == Next(Next(Next(After(stream[..n]), stream[n]), stream[n + 1]), stream[n + 2])
  {
    AfterNext(stream, n);
    AfterNext(stream, n + 1);
    AfterNext(stream, n + 2);
    hide Next;
  }

  lemma AfterNext(stream: seq<Candle>, n: nat)
    requires n < |stream|
    ensures After(stream[..n + 1]) == Next(After(stream[..n]), stream[n])
  {
    hide Next;
    assert stream[..n + 1][..n] == stream[..n];
  }

  lemma QuarterAgain(s: State, q: seq<Candle>)
    requires s.pending == [] && IsQuarter(q)
    ensures Next(Next(Next(s, q[0]), q[1]), q[2]) == State([], s.parts + [q])
  {
    var b := BucketOf(q[0]);
    assert b % M15_SECONDS == 0;
    InQuarter(b, q[1]);
    InQuarter(b, q[2]);
    hide BucketOf;
    hide InsertByTime;
    InsertLast([], q[0]);
    InsertLast([q[0]], q[1]);
    InsertLast([q[0], q[1]], q[2]);
    assert [] + [q[0]] == [q[0]] && [q[0]] + [q[1]] == [q[0], q[1]];
    assert Next(s, q[0]) == s.(pending := [q[0]]);
    assert Next(Next(s, q[0]), q[1]) == s.(pending := [q[0], q[1]]);
    assert q == [q[0], q[1]] + [q[2]];
  }

  lemma InsertLast(s: seq<Candle>, c: Candle)
    requires s != [] ==> s[|s| - 1].timestamp <= c.timestamp
    ensures InsertByTime(s, c) == s + [c]
  {
  }
}

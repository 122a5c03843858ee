/**
 The feed watchdog of `crates/app/src/feed_watchdog.rs`: which feeds are stale,
 when that is said again, and when nothing is said because the host slept.
 Times are integers in nanoseconds.
 */
module Watchdog {
  import opened Wrappers

  const NANOS: int := 1_000_000_000
  const I64_LIMIT: int := 0x8000_0000_0000_0000
  const U64_LIMIT: int := 0x1_0000_0000_0000_0000

  /** The whole seconds of a duration, rounded toward zero. */
  function Secs(d: int): int { if d >= 0 then d / NANOS else -((-d) / NANOS) }

  /** `as i64` of an unsigned 64-bit number. */
  function AsI64(u: nat): int { if u < I64_LIMIT then u else u - U64_LIMIT }

  type FeedId = (string, string)

  datatype Settings = Settings(suspendGapSecs: nat, staleAfterSecs: nat, realertIntervalSecs: nat)
  {
    predicate Valid() { suspendGapSecs < U64_LIMIT && staleAfterSecs < U64_LIMIT && realertIntervalSecs < U64_LIMIT }
  }

  // ------------------------------------------------------------ one feed, one check

  datatype StaleState = StaleState(since: int, lastAlertAt: int)

  datatype Event = NewlyStale(since: int) | StillStale(since: int) | Recovered(since: int, recoveredAt: int)

  datatype Observation = Observation(key: FeedId, marketClosed: bool, lastTickAt: Option<int>)

  predicate IsStale(c: Settings, obs: Observation, now: int, startedAt: int) {
    Secs(now - if obs.lastTickAt.Some? then obs.lastTickAt.value else startedAt) >= AsI64(c.staleAfterSecs)
  }

  /** What a check does to the state of its own feed, and what it says. */
  function Step(c: Settings, state: Option<StaleState>, obs: Observation, now: int, startedAt: int, suppress: bool)
    : (Option<StaleState>, Option<Event>)
  {
    if suppress then (state, None)
    else if obs.marketClosed then (None, None)
    else
      var stale := IsStale(c, obs, now, startedAt);
      match state
      case None => if stale then (Some(StaleState(now, now)), Some(NewlyStale(now))) else (None, None)
      case Some(s) =>
        if !stale then (None, Some(Recovered(s.since, now)))
        else if Secs(now - s.lastAlertAt) >= AsI64(c.realertIntervalSecs) then
          (Some(StaleState(s.since, now)), Some(StillStale(s.since)))
        else (state, None)
  }

  function StateOf(states: map<FeedId, StaleState>, key: FeedId): Option<StaleState> {
    if key in states then Some(states[key]) else None
  }

  class FeedFreshnessTracker {
    var states: map<FeedId, StaleState>

    constructor ()
      ensures states == map[]
    {
      states := map[];
    }

    method Evaluate(c: Settings, obs: Observation, now: int, startedAt: int, suppress: bool)
      returns (event: Option<Event>)
      modifies this
      ensures (StateOf(states, obs.key), event) == Step(c, StateOf(old(states), obs.key), obs, now, startedAt, suppress)
      ensures forall k | k != obs.key :: StateOf(states, k) == StateOf(old(states), k)
    {
      if suppress {
        return None;
      }
      if obs.marketClosed {
        states := states - {obs.key};
        return None;
      }
      var isStaleNow := match obs.lastTickAt
        case Some(ts) => Secs(now - ts) >= AsI64(c.staleAfterSecs)
        case None => Secs(now - startedAt) >= AsI64(c.staleAfterSecs);
      if obs.key !in states {
        if isStaleNow {
          states := states[obs.key := StaleState(now, now)];
          return Some(NewlyStale(now));
        }
        return None;
      }
      var state := states[obs.key];
      if isStaleNow {
        if Secs(now - state.lastAlertAt) >= AsI64(c.realertIntervalSecs) {
          states := states[obs.key := StaleState(state.since, now)];
          return Some(StillStale(state.since));
        }
        return None;
      }
      states := states - {obs.key};
      return Some(Recovered(state.since, now));
    }
  }

  /** A duration has reached a number of seconds given as an unsigned one, which counts as negative from 2^63 on. */
  predicate HasLasted(d: int, secs: nat) {
    if secs == 0 then d > -1_000_000_000
    else if secs < 0x8000_0000_0000_0000 then d >= secs * 1_000_000_000
    else d > (secs - 0x1_0000_0000_0000_0000 - 1) * 1_000_000_000
  }

  lemma SecsReach(d: int, secs: nat)
    ensures secs < U64_LIMIT ==> (Secs(d) >= AsI64(secs) <==> HasLasted(d, secs))
  {
  }

  /**
   What a check says, unless it is suppressed: of an open market, that a feed has
   become stale, that it still is once the interval has passed since the last alert,
   or that it has recovered. A feed is stale when nothing has come for the limit,
   neither since its last tick nor, before the first one, since the start.
   */
  lemma WhatACheckSays(c: Settings, state: Option<StaleState>, obs: Observation, now: int, startedAt: int)
    requires c.Valid()
    ensures var since := if obs.lastTickAt.Some? then obs.lastTickAt.value else startedAt;
      var stale := HasLasted(now - since, c.staleAfterSecs);
      var says := Step(c, state, obs, now, startedAt, false);
      && (obs.marketClosed ==> says == (None, None))
      && (!obs.marketClosed && !stale ==>
            says == (None, if state.Some? then Some(Recovered(state.value.since, now)) else None))
      && (!obs.marketClosed && stale && state.None? ==> says == (Some(StaleState(now, now)), Some(NewlyStale(now))))
      && (!obs.marketClosed && stale && state.Some? ==>
            says == if HasLasted(now - state.value.lastAlertAt, c.realertIntervalSecs)
                    then (Some(StaleState(state.value.since, now)), Some(StillStale(state.value.since)))
                    else (state, None))
  {
    var since := if obs.lastTickAt.Some? then obs.lastTickAt.value else startedAt;
    SecsReach(now - since, c.staleAfterSecs);
    if state.Some? {
      SecsReach(now - state.value.lastAlertAt, c.realertIntervalSecs);
    }
    hide HasLasted, Secs, AsI64;
  }

  // --------------------------------------------------------- whole runs of checks

  datatype Check = Check(obs: Observation, now: int, suppress: bool)

  /** A line of a feed's history: something said, or a stale state dropped because the market closed. */
  datatype Mark = Said(at: int, event: Event) | Cleared(at: int)

  datatype History = History(state: Option<StaleState>, marks: seq<Mark>)

  function Recorded(h: History, next: (Option<StaleState>, Option<Event>), now: int): History {
    History(next.0,
      if next.1.Some? then h.marks + [Said(now, next.1.value)]
      else if h.state.Some? && next.0.None? then h.marks + [Cleared(now)]
      else h.marks)
  }

  /** The history of feed `key` over the checks of all feeds. */
  function HistoryOf(c: Settings, startedAt: int, key: FeedId, checks: seq<Check>): History {
    if checks == [] then History(None, [])
    else
      var h, x := HistoryOf(c, startedAt, key, checks[..|checks| - 1]), checks[|checks| - 1];
      if x.obs.key != key then h
      else Recorded(h, Step(c, h.state, x.obs, x.now, startedAt, x.suppress), x.now)
  }

  /** The checks that can matter to a feed. */
  function OwnChecks(key: FeedId, checks: seq<Check>): seq<Check> {
    if checks == [] then []
    else
      var x := checks[|checks| - 1];
      OwnChecks(key, checks[..|checks| - 1]) + if x.obs.key == key && !x.suppress then [x] else []
  }

  /** Feeds do not interfere, and suppressed checks change nothing. */
  lemma {:induction false} OnlyOwnChecksMatter(c: Settings, startedAt: int, key: FeedId, checks: seq<Check>)
    ensures HistoryOf(c, startedAt, key, checks) == HistoryOf(c, startedAt, key, OwnChecks(key, checks))
  {
    if checks != [] {
      var n := |checks| - 1;
      OnlyOwnChecksMatter(c, startedAt, key, checks[..n]);
      var own := OwnChecks(key, checks[..n]);
      assert (own + [checks[n]])[..|own|] == own;
      assert own + [] == own;
    }
  }

  /** A mark after which the feed is in a stale episode. */
  predicate Opens(m: Mark) { m.Said? && !m.event.Recovered? }

  /** What may follow the marks before position `i`. */
  predicate Follows(c: Settings, h: seq<Mark>, i: nat)
    requires i < |h|
  {
    var m := h[i];
    if m.Said? && m.event.NewlyStale? then
      m.event.since == m.at && (i > 0 ==> !Opens(h[i - 1]))
    else
      && i > 0 && Opens(h[i - 1])
      && (m.Said? ==> m.event.since == h[i - 1].event.since)
      && (m.Said? && m.event.Recovered? ==> m.event.recoveredAt == m.at)
      && (m.Said? && m.event.StillStale? ==> Secs(m.at - h[i - 1].at) >= AsI64(c.realertIntervalSecs))
  }

  predicate WellFormed(c: Settings, h: History) {
    && (forall i | 0 <= i < |h.marks| :: Follows(c, h.marks, i))
    && (h.state.Some? <==> h.marks != [] && Opens(h.marks[|h.marks| - 1]))
    && (h.state.Some? ==>
          var m := h.marks[|h.marks| - 1];
          h.state.value == StaleState(m.event.since, m.at))
  }

  /**
   The history of a feed is made of episodes: newly stale, then any number of
   reminders, then recovered or cleared. Within an episode `since` stays the
   time it began, and a reminder comes no sooner than the interval allows.
   */
  lemma {:induction false} HistoryIsWellFormed(c: Settings, startedAt: int, key: FeedId, checks: seq<Check>)
    ensures WellFormed(c, HistoryOf(c, startedAt, key, checks))
  {
    if checks != [] {
      var x := checks[|checks| - 1];
      var h := HistoryOf(c, startedAt, key, checks[..|checks| - 1]);
      HistoryIsWellFormed(c, startedAt, key, checks[..|checks| - 1]);
      if x.obs.key == key {
        StepKeepsForm(c, h, x.obs, x.now, startedAt, x.suppress);
      }
    }
  }

  lemma StepKeepsForm(c: Settings, h: History, obs: Observation, now: int, startedAt: int, suppress: bool)
    requires WellFormed(c, h)
    ensures WellFormed(c, Recorded(h, Step(c, h.state, obs, now, startedAt, suppress), now))
  {
    hide IsStale;
    var r := Recorded(h, Step(c, h.state, obs, now, startedAt, suppress), now);
    forall i | 0 <= i < |r.marks| ensures Follows(c, r.marks, i) {
      if i < |h.marks| {
        assert Follows(c, h.marks, i);
      }
    }
  }

  // ------------------------------------------------------ the re-alert interval

  lemma SecsAtLeast(d: int, s: nat)
    requires s >= 1 && Secs(d) >= s
    ensures d >= s * NANOS
  {
  }

  /** Reminders of an interval below 2^63 seconds are at least the interval apart. */
  lemma RemindersAreSpaced(c: Settings, startedAt: int, key: FeedId, checks: seq<Check>, i: nat)
    requires 1 <= c.realertIntervalSecs < I64_LIMIT
    requires var marks := HistoryOf(c, startedAt, key, checks).marks;
      0 < i < |marks| && marks[i].Said? && marks[i].event.StillStale?
    ensures var marks := HistoryOf(c, startedAt, key, checks).marks;
      marks[i - 1].at + c.realertIntervalSecs * NANOS <= marks[i].at
  {
    HistoryIsWellFormed(c, startedAt, key, checks);
    var marks := HistoryOf(c, startedAt, key, checks).marks;
    assert Follows(c, marks, i);
    SecsAtLeast(marks[i].at - marks[i - 1].at, c.realertIntervalSecs);
  }

  /**
   From 2^63 seconds on the conversion to a signed number is negative: after any
   history, a check that finds a stale feed still stale is a reminder, unless the
   clock is back before the last alert.
   */
  lemma HugeIntervalIsNoInterval(c: Settings, startedAt: int, key: FeedId, checks: seq<Check>, x: Check)
    requires c.Valid() && c.realertIntervalSecs >= I64_LIMIT
    requires x.obs.key == key && !x.suppress && !x.obs.marketClosed && IsStale(c, x.obs, x.now, startedAt)
    requires var h := HistoryOf(c, startedAt, key, checks); h.state.Some? && h.state.value.lastAlertAt <= x.now
    ensures var h := HistoryOf(c, startedAt, key, checks);
      HistoryOf(c, startedAt, key, checks + [x]).marks == h.marks + [Said(x.now, StillStale(h.state.value.since))]
  {
    hide IsStale;
    assert (checks + [x])[..|checks|] == checks;
  }

  /** Over every run and feed, reminders come at least the interval after the alert before. */
  ghost predicate KeepsTheInterval(c: Settings) {
    forall startedAt, key, checks, i: nat ::
      var marks := HistoryOf(c, startedAt, key, checks).marks;
      0 < i < |marks| && marks[i].Said? && marks[i].event.StillStale? ==>
        marks[i - 1].at + c.realertIntervalSecs * NANOS <= marks[i].at
  }

  /** The interval is kept exactly when it is below 2^63 seconds. */
  lemma IntervalIsKeptExactlyWhen(c: Settings)
    requires c.Valid() && c.realertIntervalSecs >= 1
    ensures KeepsTheInterval(c) <==> c.realertIntervalSecs < I64_LIMIT
  {
    hide HistoryOf;
    if c.realertIntervalSecs < I64_LIMIT {
      forall startedAt, key, checks, i: nat
        ensures var marks := HistoryOf(c, startedAt, key, checks).marks;
          0 < i < |marks| && marks[i].Said? && marks[i].event.StillStale? ==>
            marks[i - 1].at + c.realertIntervalSecs * NANOS <= marks[i].at
      {
        var marks := HistoryOf(c, startedAt, key, checks).marks;
        if 0 < i < |marks| && marks[i].Said? && marks[i].event.StillStale? {
          RemindersAreSpaced(c, startedAt, key, checks, i);
        }
      }
    } else {
      var checks, now := TwoAlertsAtOnce(c);
      var marks := HistoryOf(c, 0, ("", ""), checks).marks;
      assert marks[1].Said? && marks[1].event.StillStale?;
      assert marks[1 - 1].at + c.realertIntervalSecs * NANOS > marks[1].at;
    }
  }

  /** A feed without ticks, checked twice at the time it becomes stale. */
  lemma TwoAlertsAtOnce(c: Settings) returns (checks: seq<Check>, now: int)
    requires c.Valid() && c.realertIntervalSecs >= I64_LIMIT
    ensures HistoryOf(c, 0, ("", ""), checks).marks == [Said(now, NewlyStale(now)), Said(now, StillStale(now))]
  {
    now := c.staleAfterSecs * NANOS;
    var x := Check(Observation(("", ""), false, None), now, false);
    assert IsStale(c, x.obs, now, 0);
    assert [x][..0] == [];
    assert HistoryOf(c, 0, ("", ""), []) == History(None, []);
    assert HistoryOf(c, 0, ("", ""), [x]) == History(Some(StaleState(now, now)), [Said(now, NewlyStale(now))]);
    HugeIntervalIsNoInterval(c, 0, ("", ""), [x], x);
    checks := [x] + [x];
  }

  // -------------------------------------------------------- suspend and grace

  datatype SuspendGap = SuspendGap(startedAt: int, resumedAt: int, gapSecs: int)

  function WallClockBackwardSecs(previous: int, now: int): Option<int> {
    if now < previous then Some(Secs(previous - now)) else None
  }

  function DetectSuspendGap(previous: int, now: int, suspendGapSecs: nat): Option<SuspendGap> {
    var gapSecs := Secs(now - previous);
    if gapSecs < AsI64(suspendGapSecs) then None else Some(SuspendGap(previous, now, gapSecs))
  }

  class SuspendGraceTracker {
    var graceUntil: Option<int>

    constructor ()
      ensures graceUntil == None
    {
      graceUntil := None;
    }

    method NoteSuspendResumed(resumedAt: int, staleAfterSecs: nat)
      modifies this
      ensures graceUntil == Some(resumedAt + AsI64(staleAfterSecs) * NANOS)
    {
      graceUntil := Some(resumedAt + AsI64(staleAfterSecs) * NANOS);
    }

    predicate InGracePeriod(now: int)
      reads this
    {
      graceUntil.Some? && now < graceUntil.value
    }
  }

  datatype Round = Round(now: int, feeds: seq<Observation>)

  /** The time of the round before round `n`. */
  function Previous(startedAt: int, rounds: seq<Round>, n: nat): int
    requires n <= |rounds|
  {
    if n == 0 then startedAt else rounds[n - 1].now
  }

  /** Round `n` is skipped because the wall clock went backwards. */
  predicate Skipped(startedAt: int, rounds: seq<Round>, n: nat)
    requires n < |rounds|
  {
    rounds[n].now < Previous(startedAt, rounds, n)
  }

  /** Round `n` finds that the process was suspended. */
  predicate Resumes(c: Settings, startedAt: int, rounds: seq<Round>, n: nat)
    requires n < |rounds|
  {
    !Skipped(startedAt, rounds, n)
    && Secs(rounds[n].now - Previous(startedAt, rounds, n)) >= AsI64(c.suspendGapSecs)
  }

  /** Round `i` is the latest one of the first `n` that found a suspend. */
  predicate LatestResume(c: Settings, startedAt: int, rounds: seq<Round>, n: nat, i: nat)
    requires n <= |rounds|
  {
    i < n && Resumes(c, startedAt, rounds, i) && forall j: nat | i < j < n :: !Resumes(c, startedAt, rounds, j)
  }

  function GraceEnd(c: Settings, rounds: seq<Round>, i: nat): int
    requires i < |rounds|
  {
    rounds[i].now + AsI64(c.staleAfterSecs) * NANOS
  }

  /** Round `n` says nothing: it comes before the grace period of the latest suspend has ended. */
  ghost predicate Quiet(c: Settings, startedAt: int, rounds: seq<Round>, n: nat)
    requires n < |rounds|
  {
    exists i: nat :: LatestResume(c, startedAt, rounds, n + 1, i) && rounds[n].now < GraceEnd(c, rounds, i)
  }

  /** The checks of the first `n` rounds in their order. */
  ghost function ChecksOf(c: Settings, startedAt: int, rounds: seq<Round>, n: nat): seq<Check>
    requires n <= |rounds|
  {
    if n == 0 then []
    else
      var before := ChecksOf(c, startedAt, rounds, n - 1);
      if Skipped(startedAt, rounds, n - 1) then before
      else before + RoundChecks(rounds[n - 1].feeds, rounds[n - 1].now, Quiet(c, startedAt, rounds, n - 1))
  }

  function RoundChecks(feeds: seq<Observation>, now: int, suppress: bool): (s: seq<Check>)
    ensures |s| == |feeds|
  {
    seq(|feeds|, i requires 0 <= i < |feeds| => Check(feeds[i], now, suppress))
  }

  /** The suspends found in the first `n` rounds. */
  function GapsOf(c: Settings, startedAt: int, rounds: seq<Round>, n: nat): seq<SuspendGap>
    requires n <= |rounds|
  {
    if n == 0 then []
    else
      var from, to := Previous(startedAt, rounds, n - 1), rounds[n - 1].now;
      GapsOf(c, startedAt, rounds, n - 1)
      + if Resumes(c, startedAt, rounds, n - 1) then [SuspendGap(from, to, Secs(to - from))] else []
  }

  /** What the marks say of a feed. */
  function Spoken(key: FeedId, marks: seq<Mark>): seq<(FeedId, Event)> {
    if marks == [] then []
    else
      var m := marks[|marks| - 1];
      Spoken(key, marks[..|marks| - 1]) + if m.Said? then [(key, m.event)] else []
  }

  function AlertsFor(key: FeedId, alerts: seq<(FeedId, Event)>): seq<(FeedId, Event)> {
    if alerts == [] then []
    else
      var a := alerts[|alerts| - 1];
      AlertsFor(key, alerts[..|alerts| - 1]) + if a.0 == key then [a] else []
  }

  ghost predicate Matches(
      c: Settings, startedAt: int, key: FeedId, checks: seq<Check>, states: map<FeedId, StaleState>, alerts: seq<(FeedId, Event)>)
  {
    var h := HistoryOf(c, startedAt, key, checks);
    StateOf(states, key) == h.state && AlertsFor(key, alerts) == Spoken(key, h.marks)
  }

  lemma MatchesNext(
      c: Settings, startedAt: int, key: FeedId, checks: seq<Check>, x: Check,
      states: map<FeedId, StaleState>, alerts: seq<(FeedId, Event)>, next: map<FeedId, StaleState>, event: Option<Event>)
    requires Matches(c, startedAt, key, checks, states, alerts)
    requires (StateOf(next, x.obs.key), event) == Step(c, StateOf(states, x.obs.key), x.obs, x.now, startedAt, x.suppress)
    requires key != x.obs.key ==> StateOf(next, key) == StateOf(states, key)
    ensures Matches(c, startedAt, key, checks + [x], next,
                    if event.Some? then alerts + [(x.obs.key, event.value)] else alerts)
  {
    hide Step;
    assert (checks + [x])[..|checks|] == checks;
    var h := HistoryOf(c, startedAt, key, checks);
    if event.Some? {
      assert (alerts + [(x.obs.key, event.value)])[..|alerts|] == alerts;
      assert (h.marks + [Said(x.now, event.value)])[..|h.marks|] == h.marks;
    } else {
      assert (h.marks + [Cleared(x.now)])[..|h.marks|] == h.marks;
    }
  }

  ghost predicate GraceIs(c: Settings, startedAt: int, rounds: seq<Round>, n: nat, graceUntil: Option<int>)
    requires n <= |rounds|
  {
    match graceUntil
    case None => forall i: nat :: !LatestResume(c, startedAt, rounds, n, i)
    case Some(until) => exists i: nat :: LatestResume(c, startedAt, rounds, n, i) && until == GraceEnd(c, rounds, i)
  }

  lemma GraceAfterRound(c: Settings, startedAt: int, rounds: seq<Round>, n: nat, graceUntil: Option<int>)
    requires n < |rounds| && GraceIs(c, startedAt, rounds, n, graceUntil)
    ensures Resumes(c, startedAt, rounds, n) ==> GraceIs(c, startedAt, rounds, n + 1, Some(GraceEnd(c, rounds, n)))
    ensures !Resumes(c, startedAt, rounds, n) ==> GraceIs(c, startedAt, rounds, n + 1, graceUntil)
  {
    hide Resumes;
    if Resumes(c, startedAt, rounds, n) {
      assert LatestResume(c, startedAt, rounds, n + 1, n);
    } else if graceUntil.Some? {
      var i: nat :| LatestResume(c, startedAt, rounds, n, i) && graceUntil.value == GraceEnd(c, rounds, i);
      assert LatestResume(c, startedAt, rounds, n + 1, i);
    } else {
      var m := n + 1;
      forall i: nat ensures !LatestResume(c, startedAt, rounds, m, i) {
        assert !LatestResume(c, startedAt, rounds, n, i);
      }
    }
  }

  /** Being in the grace period is being before the end of the latest suspend's grace. */
  lemma GraceIsQuiet(c: Settings, startedAt: int, rounds: seq<Round>, n: nat, graceUntil: Option<int>)
    requires n < |rounds| && GraceIs(c, startedAt, rounds, n + 1, graceUntil)
    ensures (graceUntil.Some? && rounds[n].now < graceUntil.value) <==> Quiet(c, startedAt, rounds, n)
  {
    hide Resumes;
    if graceUntil.Some? && Quiet(c, startedAt, rounds, n) {
      var i: nat :| LatestResume(c, startedAt, rounds, n + 1, i) && graceUntil.value == GraceEnd(c, rounds, i);
      var j: nat :| LatestResume(c, startedAt, rounds, n + 1, j) && rounds[n].now < GraceEnd(c, rounds, j);
      assert i == j;
    }
  }

  /**
   The watchdog over a series of rounds: for every feed it says exactly what the
   feed's history over the checks of all rounds says, and the checks made in the
   grace period after a suspend are suppressed.
   */
  method Run(c: Settings, startedAt: int, rounds: seq<Round>)
    returns (alerts: seq<(FeedId, Event)>, gaps: seq<SuspendGap>, freshness: FeedFreshnessTracker)
    ensures forall key :: Matches(c, startedAt, key, ChecksOf(c, startedAt, rounds, |rounds|), freshness.states, alerts)
    ensures gaps == GapsOf(c, startedAt, rounds, |rounds|)
  {
    hide Quiet, GraceIs, HistoryOf, Step, Matches;
    freshness := new FeedFreshnessTracker();
    var grace := new SuspendGraceTracker();
    var previous := startedAt;
    alerts, gaps := [], [];
    ghost var checks: seq<Check> := [];
    NothingYet(c, startedAt, rounds);
    for n := 0 to |rounds|
      invariant previous == Previous(startedAt, rounds, n) && gaps == GapsOf(c, startedAt, rounds, n)
      invariant GraceIs(c, startedAt, rounds, n, grace.graceUntil)
      invariant checks == ChecksOf(c, startedAt, rounds, n)
      invariant forall key :: Matches(c, startedAt, key, checks, freshness.states, alerts)
    {
      var now := rounds[n].now;
      GraceAfterRound(c, startedAt, rounds, n, grace.graceUntil);
      if WallClockBackwardSecs(previous, now).Some? {
        previous := now;
        continue;
      }
      var suspendGap := DetectSuspendGap(previous, now, c.suspendGapSecs);
      previous := now;
      if suspendGap.Some? {
        grace.NoteSuspendResumed(now, c.staleAfterSecs);
        gaps := gaps + [suspendGap.value];
      }
      GraceIsQuiet(c, startedAt, rounds, n, grace.graceUntil);
      alerts := CheckFeeds(c, startedAt, rounds[n], freshness, grace, alerts, checks);
      checks := checks + RoundChecks(rounds[n].feeds, now, grace.InGracePeriod(now));
    }
  }

  lemma NothingYet(c: Settings, startedAt: int, rounds: seq<Round>)
    ensures GraceIs(c, startedAt, rounds, 0, None)
    ensures forall key :: Matches(c, startedAt, key, [], map[], [])
  {
  }

  method CheckFeeds(
      c: Settings, startedAt: int, round: Round, freshness: FeedFreshnessTracker, grace: SuspendGraceTracker,
      said: seq<(FeedId, Event)>, ghost checks: seq<Check>)
    returns (alerts: seq<(FeedId, Event)>)
    requires forall key :: Matches(c, startedAt, key, checks, freshness.states, said)
    modifies freshness
    ensures forall key :: Matches(c, startedAt, key,
              checks + RoundChecks(round.feeds, round.now, grace.InGracePeriod(round.now)), freshness.states, alerts)
  {
    hide Step, Matches;
    alerts := said;
    ghost var suppress := grace.InGracePeriod(round.now);
    ghost var done := checks;
    for i := 0 to |round.feeds|
      invariant done == checks + RoundChecks(round.feeds[..i], round.now, suppress)
      invariant forall key :: Matches(c, startedAt, key, done, freshness.states, alerts)
    {
      ghost var x := Check(round.feeds[i], round.now, suppress);
      ghost var states, before := freshness.states, alerts;
      var event := freshness.Evaluate(c, round.feeds[i], round.now, startedAt, grace.InGracePeriod(round.now));
      if event.Some? {
        alerts := alerts + [(round.feeds[i].key, event.value)];
      }
      forall key ensures Matches(c, startedAt, key, done + [x], freshness.states, alerts) {
        MatchesNext(c, startedAt, key, done, x, states, before, freshness.states, event);
      }
      assert RoundChecks(round.feeds[..i + 1], round.now, suppress) == RoundChecks(round.feeds[..i], round.now, suppress) + [x];
      done := done + [x];
    }
    assert round.feeds[..|round.feeds|] == round.feeds;
  }
}

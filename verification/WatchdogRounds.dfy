/** The rounds of the watchdog in terms of their times: which are skipped, which find a suspend, and which say nothing. */
module WatchdogRounds {
  import opened Wrappers
  import opened Watchdog

  /** When round `n` is due: the round before it, or the start. */
  function Since(startedAt: int, rounds: seq<Round>, n: nat): int
    requires n < |rounds|
  {
    if n > 0 then rounds[n - 1].now else startedAt
  }

  /** The process was suspended: the clock has moved on by the limit since the round before. */
  predicate FindsSuspend(c: Settings, startedAt: int, rounds: seq<Round>, n: nat)
    requires n < |rounds|
  {
    var d := rounds[n].now - Since(startedAt, rounds, n);
    d >= 0 && HasLasted(d, c.suspendGapSecs)
  }

  lemma ResumesAreSuspends(c: Settings, startedAt: int, rounds: seq<Round>, n: nat)
    requires c.Valid() && n < |rounds|
    ensures Resumes(c, startedAt, rounds, n) <==> FindsSuspend(c, startedAt, rounds, n)
    ensures Skipped(startedAt, rounds, n) <==> rounds[n].now < Since(startedAt, rounds, n)
  {
    SecsReach(rounds[n].now - Since(startedAt, rounds, n), c.suspendGapSecs);
    hide Secs, AsI64, HasLasted;
  }

  /** The gap goes from the round before to round `n`, with its whole seconds. */
  predicate IsGapOf(g: SuspendGap, startedAt: int, rounds: seq<Round>, n: nat)
    requires n < |rounds|
  {
    && g.startedAt == Since(startedAt, rounds, n) && g.resumedAt == rounds[n].now
    && g.gapSecs * 1_000_000_000 <= g.resumedAt - g.startedAt < (g.gapSecs + 1) * 1_000_000_000
  }

  /** `at` are the rounds among the first `n` that find a suspend, in order, and `gaps` are theirs. */
  ghost predicate AreGaps(c: Settings, startedAt: int, rounds: seq<Round>, n: nat, at: seq<nat>, gaps: seq<SuspendGap>)
    requires n <= |rounds|
  {
    && |at| == |gaps|
    && (forall k | 0 <= k < |at| :: at[k] < n)
    && (forall i: nat | i < n :: i in at <==> FindsSuspend(c, startedAt, rounds, i))
    && (forall j, k | 0 <= j < k < |at| :: at[j] < at[k])
    && forall k | 0 <= k < |at| :: IsGapOf(gaps[k], startedAt, rounds, at[k])
  }

  /** An alert of a suspend is raised for exactly the rounds that find one, in their order. */
  lemma {:induction false} GapsAreFound(c: Settings, startedAt: int, rounds: seq<Round>, n: nat) returns (at: seq<nat>)
    requires c.Valid() && n <= |rounds|
    ensures AreGaps(c, startedAt, rounds, n, at, GapsOf(c, startedAt, rounds, n))
  {
    at := [];
    if n > 0 {
      at := GapsAreFound(c, startedAt, rounds, n - 1);
      ResumesAreSuspends(c, startedAt, rounds, n - 1);
      hide FindsSuspend, Resumes;
      if Resumes(c, startedAt, rounds, n - 1) {
        SuspendIsForward(c, startedAt, rounds, n - 1);
        at := at + [n - 1];
      }
    }
  }

  lemma SuspendIsForward(c: Settings, startedAt: int, rounds: seq<Round>, n: nat)
    requires n < |rounds| && FindsSuspend(c, startedAt, rounds, n)
    ensures var from, to := Since(startedAt, rounds, n), rounds[n].now;
      IsGapOf(SuspendGap(from, to, Secs(to - from)), startedAt, rounds, n)
  {
  }

  /** An unsigned number as a signed one of 64 bits. */
  function Signed(u: nat): int { if u < 0x8000_0000_0000_0000 then u else u - 0x1_0000_0000_0000_0000 }

  /** Round `i` is the last one up to `n` that finds a suspend. */
  predicate IsLatestSuspend(c: Settings, startedAt: int, rounds: seq<Round>, n: nat, i: nat)
    requires n < |rounds|
  {
    && i <= n && FindsSuspend(c, startedAt, rounds, i)
    && forall j: nat | i < j <= n :: !FindsSuspend(c, startedAt, rounds, j)
  }

  /**
   A round says nothing of its feeds exactly when, since the latest round up to it
   that has found a suspend, less than the stale limit has passed.
   */
  lemma QuietExactlyWhen(c: Settings, startedAt: int, rounds: seq<Round>, n: nat)
    requires c.Valid() && n < |rounds|
    ensures Quiet(c, startedAt, rounds, n) <==>
      exists i: nat ::
        IsLatestSuspend(c, startedAt, rounds, n, i)
        && rounds[n].now < rounds[i].now + Signed(c.staleAfterSecs) * 1_000_000_000
  {
    hide Resumes, FindsSuspend;
    forall i: nat | i <= n ensures Resumes(c, startedAt, rounds, i) <==> FindsSuspend(c, startedAt, rounds, i) {
      ResumesAreSuspends(c, startedAt, rounds, i);
    }
    var m := n + 1;
    forall i: nat
      ensures LatestResume(c, startedAt, rounds, m, i) <==> IsLatestSuspend(c, startedAt, rounds, n, i)
      ensures i <= n ==> GraceEnd(c, rounds, i) == rounds[i].now + Signed(c.staleAfterSecs) * 1_000_000_000
      ensures LatestResume(c, startedAt, rounds, m, i) ==> i <= n
    {
    }
    hide LatestResume, IsLatestSuspend;
  }

  /** A round whose clock is behind that of the round before checks nothing, any other checks each of its feeds once. */
  lemma WhatARoundChecks(c: Settings, startedAt: int, rounds: seq<Round>, n: nat)
    requires c.Valid() && n < |rounds|
    ensures var before, after := ChecksOf(c, startedAt, rounds, n), ChecksOf(c, startedAt, rounds, n + 1);
      && before <= after
      && |after| - |before| == (if rounds[n].now < Since(startedAt, rounds, n) then 0 else |rounds[n].feeds|)
      && forall i | |before| <= i < |after| ::
        after[i] == Check(rounds[n].feeds[i - |before|], rounds[n].now, Quiet(c, startedAt, rounds, n))
  {
    ResumesAreSuspends(c, startedAt, rounds, n);
    hide Quiet, Resumes, FindsSuspend;
  }
}

/**
 The retries of an alert (`crates/app/src/lib.rs`) and the check of the watchdog's
 settings (`crates/core/src/config.rs`) that keeps them shorter than the time to
 the next alert of the same feed.
 */
module NotifyRetry {
  import opened Wrappers
  import W = Watchdog

  const U64_MAX: int := W.U64_LIMIT - 1
  const MAX_NOTIFY_RETRY_ATTEMPTS := 10
  const NOTIFY_SEND_TIMEOUT_SECS := 10

  function Pow2(n: nat): (p: nat)
    ensures p >= 1
  {
    if n == 0 then 1 else 2 * Pow2(n - 1)
  }

  /** The wait before retry `attempt`, with the saturating arithmetic of the source. */
  function RetryDelay(attempt: nat, initialSecs: nat): nat {
    var exponent := if attempt == 0 then 0 else if attempt - 1 <= 63 then attempt - 1 else 63;
    var wait := initialSecs * Pow2(exponent);
    if wait <= U64_MAX then wait else U64_MAX
  }

  // ------------------------------------------------------------------- settings

  datatype Config = Config(
    checkIntervalSecs: nat, suspendGapSecs: nat, staleAfterSecs: nat, realertIntervalSecs: nat,
    excludeExchanges: seq<string>, notifyRetryAttempts: nat, notifyRetryInitialSecs: nat)

  /** The longest time of one alert: all sends at their time limit, and all waits. */
  function WorstCaseSecs(c: Config): nat {
    (c.notifyRetryAttempts + 1) * NOTIFY_SEND_TIMEOUT_SECS
    + (Pow2(c.notifyRetryAttempts) - 1) * c.notifyRetryInitialSecs
  }

  /** The option that is refused, if any; `supported` are the exchange names that parse. */
  function Validate(c: Config, supported: set<string>): Option<string> {
    if c.checkIntervalSecs == 0 then Some("check_interval_secs")
    else if c.suspendGapSecs == 0 then Some("suspend_gap_secs")
    else if c.staleAfterSecs == 0 then Some("stale_after_secs")
    else if c.realertIntervalSecs == 0 then Some("realert_interval_secs")
    else if c.notifyRetryInitialSecs == 0 then Some("notify_retry_initial_secs")
    else if c.suspendGapSecs <= c.checkIntervalSecs then Some("suspend_gap_secs")
    else if c.staleAfterSecs < c.checkIntervalSecs then Some("stale_after_secs")
    else if exists i | 0 <= i < |c.excludeExchanges| :: c.excludeExchanges[i] !in supported then Some("exclude_exchanges")
    else if c.notifyRetryAttempts > MAX_NOTIFY_RETRY_ATTEMPTS then Some("notify_retry_attempts")
    else if WorstCaseSecs(c) >= c.realertIntervalSecs then Some("realert_interval_secs")
    else None
  }

  // -------------------------------------------------------------------- retries

  datatype SendResult = Sent | SendFailed(error: string)

  function Delays(n: nat, initialSecs: nat): (s: seq<nat>)
    ensures |s| == n
  {
    seq(n, k requires 0 <= k < n => RetryDelay(k + 1, initialSecs))
  }

  /**
   Sends until one send succeeds or the retries are used up. `outcomes[k]` is what
   send number `k` gives; `sleeps` are the waits made.
   */
  method RetrySend(outcomes: seq<SendResult>, attempts: nat, initialSecs: nat)
    returns (r: SendResult, sleeps: seq<nat>)
    requires |outcomes| == attempts + 1
    ensures |sleeps| <= attempts && sleeps == Delays(|sleeps|, initialSecs)
    ensures r == outcomes[|sleeps|]
    ensures forall k | 0 <= k < |sleeps| :: outcomes[k].SendFailed?
    ensures r.SendFailed? ==> |sleeps| == attempts
  {
    sleeps := [];
    var lastErr := outcomes[0];
    if lastErr.Sent? {
      return Sent, sleeps;
    }
    for attempt := 1 to attempts + 1
      invariant |sleeps| == attempt - 1 && sleeps == Delays(|sleeps|, initialSecs)
      invariant lastErr == outcomes[attempt - 1]
      invariant forall k | 0 <= k < attempt :: outcomes[k].SendFailed?
    {
      sleeps := sleeps + [RetryDelay(attempt, initialSecs)];
      if outcomes[attempt].Sent? {
        return Sent, sleeps;
      }
      lastErr := outcomes[attempt];
    }
    return lastErr, sleeps;
  }

  function Sum(s: seq<nat>): nat {
    if s == [] then 0 else Sum(s[..|s| - 1]) + s[|s| - 1]
  }

  /** Unsaturated, the first `n` delays add up to `2^n - 1` times the first one. */
  lemma {:induction false} DelaysAddUp(n: nat, initialSecs: nat)
    requires n <= 64 && (Pow2(n) - 1) * initialSecs <= U64_MAX
    ensures Sum(Delays(n, initialSecs)) == (Pow2(n) - 1) * initialSecs
    ensures forall k | 0 <= k < n :: Delays(n, initialSecs)[k] == initialSecs * Pow2(k)
  {
    if n > 0 {
      var half := Pow2(n - 1);
      assert Delays(n, initialSecs)[..n - 1] == Delays(n - 1, initialSecs);
      Split(half, initialSecs);
      DelaysAddUp(n - 1, initialSecs);
    }
  }

  lemma Split(half: nat, initialSecs: nat)
    requires half >= 1
    ensures (2 * half - 1) * initialSecs == (half - 1) * initialSecs + initialSecs * half
    ensures (half - 1) * initialSecs >= 0
  {
  }

  lemma {:induction false} SumOfPrefix(n: nat, m: nat, initialSecs: nat)
    requires n <= m
    ensures Sum(Delays(n, initialSecs)) <= Sum(Delays(m, initialSecs))
  {
    if n < m {
      assert Delays(m, initialSecs)[..m - 1] == Delays(m - 1, initialSecs);
      SumOfPrefix(n, m - 1, initialSecs);
    }
  }

  lemma {:induction false} BoundedSum(s: seq<nat>, limit: nat)
    requires forall k | 0 <= k < |s| :: s[k] <= limit
    ensures Sum(s) <= |s| * limit
  {
    if s != [] {
      BoundedSum(s[..|s| - 1], limit);
    }
  }

  /** The first wait is the initial one, each later one doubles, and from the one that 64 bits cannot hold all are the largest. */
  lemma {:induction false} WaitsDouble(attempt: nat, initialSecs: nat)
    requires 1 <= attempt < 64 && initialSecs <= U64_MAX
    ensures RetryDelay(1, initialSecs) == initialSecs
    ensures var twice := 2 * RetryDelay(attempt, initialSecs);
      RetryDelay(attempt + 1, initialSecs) == if twice <= 0xFFFF_FFFF_FFFF_FFFF then twice else 0xFFFF_FFFF_FFFF_FFFF
  {
    var p := Pow2(attempt - 1);
    assert Pow2(0) == 1 && Pow2(attempt) == 2 * p;
    Twice(initialSecs, p);
    hide Pow2;
  }

  lemma Twice(a: nat, p: nat)
    ensures a * (2 * p) == 2 * (a * p) && a * p >= 0
  {
  }

  /** From the 64th retry on the wait stays the same. */
  lemma WaitsStay(attempt: nat, initialSecs: nat)
    requires attempt >= 64
    ensures RetryDelay(attempt, initialSecs) == RetryDelay(64, initialSecs)
  {
    hide Pow2;
  }

  /** The longest one alert can take: each send at its time limit of ten seconds, and all waits. */
  function LongestAlert(c: Config): nat {
    10 * (c.notifyRetryAttempts + 1) + Sum(Delays(c.notifyRetryAttempts, c.notifyRetryInitialSecs))
  }

  /** Where the exact waits do not fit into 64 bits, the saturated ones are already as long as any interval. */
  lemma {:induction false} SaturatedWaits(n: nat, initialSecs: nat)
    requires n <= 64 && (Pow2(n) - 1) * initialSecs > U64_MAX
    ensures Sum(Delays(n, initialSecs)) >= U64_MAX
  {
    if n > 0 {
      var front := Delays(n - 1, initialSecs);
      assert Delays(n, initialSecs)[..n - 1] == front;
      Split(Pow2(n - 1), initialSecs);
      if (Pow2(n - 1) - 1) * initialSecs > U64_MAX {
        SaturatedWaits(n - 1, initialSecs);
      } else {
        DelaysAddUp(n - 1, initialSecs);
      }
    }
  }

  /**
   The settings are accepted exactly when no interval is zero, a suspend is longer
   than the checks are apart and the stale limit not shorter, the exchanges are
   known, there are at most ten retries, and the longest alert is over before the
   next one.
   */
  lemma AcceptedExactlyWhen(c: Config, supported: set<string>)
    requires c.realertIntervalSecs <= U64_MAX
    ensures Validate(c, supported).None? <==>
      && c.checkIntervalSecs > 0 && c.realertIntervalSecs > 0 && c.notifyRetryInitialSecs > 0
      && c.suspendGapSecs > c.checkIntervalSecs && c.staleAfterSecs >= c.checkIntervalSecs
      && (forall i | 0 <= i < |c.excludeExchanges| :: c.excludeExchanges[i] in supported)
      && c.notifyRetryAttempts <= 10
      && LongestAlert(c) < c.realertIntervalSecs
  {
    hide Pow2, RetryDelay, Sum, Delays;
    var n, initial := c.notifyRetryAttempts, c.notifyRetryInitialSecs;
    if n <= 10 {
      if (Pow2(n) - 1) * initial > U64_MAX {
        SaturatedWaits(n, initial);
      } else {
        DelaysAddUp(n, initial);
      }
    }
  }

  /** The option that is named is at fault. */
  lemma RefusalNamesTheFault(c: Config, supported: set<string>)
    requires Validate(c, supported).Some? && c.realertIntervalSecs <= U64_MAX
    ensures match Validate(c, supported).value
      case "check_interval_secs" => c.checkIntervalSecs == 0
      case "suspend_gap_secs" => c.suspendGapSecs == 0 || c.suspendGapSecs <= c.checkIntervalSecs
      case "stale_after_secs" => c.staleAfterSecs < c.checkIntervalSecs || c.staleAfterSecs == 0
      case "realert_interval_secs" => c.realertIntervalSecs == 0 || LongestAlert(c) >= c.realertIntervalSecs
      case "notify_retry_initial_secs" => c.notifyRetryInitialSecs == 0
      case "exclude_exchanges" => exists i | 0 <= i < |c.excludeExchanges| :: c.excludeExchanges[i] !in supported
      case "notify_retry_attempts" => c.notifyRetryAttempts > 10
      case _ => false
  {
    AcceptedExactlyWhen(c, supported);
    hide WorstCaseSecs, LongestAlert;
  }

  lemma AcceptedSettings(c: Config, supported: set<string>)
    requires Validate(c, supported).None?
    ensures c.notifyRetryAttempts <= MAX_NOTIFY_RETRY_ATTEMPTS && c.realertIntervalSecs >= 1
    ensures 0 <= (Pow2(c.notifyRetryAttempts) - 1) * c.notifyRetryInitialSecs
    ensures (c.notifyRetryAttempts + 1) * NOTIFY_SEND_TIMEOUT_SECS
            + (Pow2(c.notifyRetryAttempts) - 1) * c.notifyRetryInitialSecs < c.realertIntervalSecs
  {
    hide Pow2;
  }

  /**
   With accepted settings no wait saturates, and one alert, whose sends each end
   within their time limit, is over before the re-alert interval is.
   */
  lemma AlertIsOverInTime(c: Config, supported: set<string>, sleeps: seq<nat>, sends: seq<nat>)
    requires Validate(c, supported).None? && c.realertIntervalSecs <= U64_MAX
    requires |sleeps| <= c.notifyRetryAttempts && sleeps == Delays(|sleeps|, c.notifyRetryInitialSecs)
    requires |sends| == |sleeps| + 1 && forall k | 0 <= k < |sends| :: sends[k] <= NOTIFY_SEND_TIMEOUT_SECS
    ensures Sum(sends) + Sum(sleeps) < c.realertIntervalSecs
    ensures forall k | 0 <= k < |sleeps| :: sleeps[k] == c.notifyRetryInitialSecs * Pow2(k)
  {
    hide Validate, Pow2, RetryDelay, Sum;
    var n, initial := c.notifyRetryAttempts, c.notifyRetryInitialSecs;
    AcceptedSettings(c, supported);
    DelaysAddUp(n, initial);
    SumOfPrefix(|sleeps|, n, initial);
    BoundedSum(sends, NOTIFY_SEND_TIMEOUT_SECS);
    forall k | 0 <= k < |sleeps| ensures sleeps[k] == initial * Pow2(k) {
      assert Delays(n, initial)[k] == sleeps[k];
    }
  }

  /** The sends of an alert that start when it is raised end before the next reminder of the same feed is raised. */
  lemma SendsEndBeforeTheNextReminder(
      c: Config, supported: set<string>, startedAt: int, key: W.FeedId, checks: seq<W.Check>, i: nat,
      sleeps: seq<nat>, sends: seq<nat>)
    requires Validate(c, supported).None? && c.realertIntervalSecs < W.I64_LIMIT
    requires |sleeps| <= c.notifyRetryAttempts && sleeps == Delays(|sleeps|, c.notifyRetryInitialSecs)
    requires |sends| == |sleeps| + 1 && forall k | 0 <= k < |sends| :: sends[k] <= NOTIFY_SEND_TIMEOUT_SECS
    requires var s := W.Settings(c.suspendGapSecs, c.staleAfterSecs, c.realertIntervalSecs);
      var marks := W.HistoryOf(s, startedAt, key, checks).marks;
      0 < i < |marks| && marks[i].Said? && marks[i].event.StillStale?
    ensures var s := W.Settings(c.suspendGapSecs, c.staleAfterSecs, c.realertIntervalSecs);
      var marks := W.HistoryOf(s, startedAt, key, checks).marks;
      marks[i - 1].at + (Sum(sends) + Sum(sleeps)) * W.NANOS < marks[i].at
  {
    hide Validate, Pow2, RetryDelay, Sum, Delays;
    var s := W.Settings(c.suspendGapSecs, c.staleAfterSecs, c.realertIntervalSecs);
    AlertIsOverInTime(c, supported, sleeps, sends);
    AcceptedSettings(c, supported);
    W.RemindersAreSpaced(s, startedAt, key, checks, i);
  }
}

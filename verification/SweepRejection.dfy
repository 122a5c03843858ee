/** When a sweep keeps its promise to start nothing after a rejection. */
module SweepRejection {
  import opened Wrappers
  import opened SweepProtocol

  // The queue is cancelled in a later critical section than the one in which the
  // rejection is found, so a claim can come in between. Whether that can happen is
  // decided by the runs, the sink, the number of combinations and of threads.

  /** The step starts a combination although a record has been rejected. */
  ghost predicate StartsAfterRejection(cfg: Config, steps: seq<Step>, step: Step) {
    && Feasible(cfg, steps) && Enabled(cfg, After(cfg, steps), step)
    && After(cfg, steps).finalErr.Some?
    && Apply(cfg, After(cfg, steps), step).queue.next > After(cfg, steps).queue.next
  }

  /** In no schedule a combination is started after a rejection. */
  ghost predicate KeepsThePromise(cfg: Config) {
    forall steps, step :: !StartsAfterRejection(cfg, steps, step)
  }

  /**
   An order in which records can reach `on_result`: combinations are claimed in
   order, and a thread that has not delivered its record holds it.
   */
  predicate Deliverable(cfg: Config, d: seq<nat>) {
    && (forall k | 0 <= k < |d| :: d[k] < k + cfg.Capacity() && cfg.run(d[k]).Record?)
    && (forall j, k | 0 <= j < k < |d| :: d[j] != d[k])
  }

  /** The sink rejects the last record of `d` and accepts those before it. */
  predicate RejectsLast(cfg: Config, d: seq<nat>) {
    d != [] && var k := |d| - 1;
    AllAccepted(cfg, d[..k]) && !cfg.accepts(d[..k], d[k])
  }

  /** A rejection that can come before the last combination has been claimed. */
  predicate RejectsEarly(cfg: Config, d: seq<nat>) {
    Deliverable(cfg, d) && RejectsLast(cfg, d) && forall k | 0 <= k < |d| :: d[k] + 1 < cfg.n
  }

  // ------------------------------------------ what a schedule delivers is deliverable

  function Sent(s: State): seq<nat> { s.received + s.channel }

  predicate Windowed(cfg: Config, s: State) {
    forall k | 0 <= k < |Sent(s)| :: Sent(s)[k] < k + cfg.Capacity()
  }

  lemma HeldIsClaimed(cfg: Config, s: State, w: nat)
    requires Inv(cfg, s) && w < |s.workers| && Holds(s.workers[w])
    ensures s.workers[w].i < s.queue.next && s.queue.next <= |Sent(s)| + cfg.Capacity() && !s.main.Returned?
  {
    var i := s.workers[w].i;
    SumAtLeast(s.workers, HoldingOf(i), w);
    SumAtLeast(s.workers, Holding(), w);
    SumMonotone(s.workers, Holding(), Active());
    hide Sum, Count, Stopped, Kinds, Judged, Decided;
    assert Places(s, i) == if i < s.queue.next then 1 else 0;
  }

  lemma SentGrows(cfg: Config, s: State, step: Step)
    requires Enabled(cfg, s, step) && !(step.Send? && s.main.Returned?)
    ensures Sent(Apply(cfg, s, step)) == Sent(s) + if step.Send? then [s.workers[step.w].i] else []
  {
    hide StoreIfEmpty, Claimed;
  }

  lemma WindowedStep(cfg: Config, s: State, step: Step)
    requires Inv(cfg, s) && Windowed(cfg, s) && Enabled(cfg, s, step)
    ensures Windowed(cfg, Apply(cfg, s, step))
  {
    hide Apply, Sent, Inv;
    if step.Send? {
      HeldIsClaimed(cfg, s, step.w);
    }
    SentGrows(cfg, s, step);
  }

  lemma {:induction false} WindowedReachable(cfg: Config, steps: seq<Step>)
    requires cfg.n > 0 && Feasible(cfg, steps)
    ensures Windowed(cfg, After(cfg, steps))
  {
    hide Windowed, Inv, Apply, Enabled;
    if steps == [] {
      NothingSent(cfg);
    } else {
      var k := |steps| - 1;
      WindowedReachable(cfg, steps[..k]);
      InvReachable(cfg, steps[..k]);
      WindowedStep(cfg, After(cfg, steps[..k]), steps[k]);
    }
  }

  lemma NothingSent(cfg: Config)
    ensures Windowed(cfg, After(cfg, []))
  {
  }

  lemma {:induction false} CountTwice(h: seq<nat>, j: nat, k: nat)
    requires j < k < |h| && h[j] == h[k]
    ensures Count(h, h[j]) >= 2
  {
    var n := |h| - 1;
    if k < n {
      CountTwice(h[..n], j, k);
    } else {
      CountMember(h[..n], h[j]);
      assert h[..n][j] == h[j];
    }
  }

  lemma CountOnce(h: seq<nat>, j: nat, k: nat)
    requires j < k < |h| && Count(h, h[j]) <= 1
    ensures h[j] != h[k]
  {
    if h[j] == h[k] {
      CountTwice(h, j, k);
    }
  }

  /** What has been received was claimed, each once. */
  lemma ReceivedOnce(cfg: Config, s: State)
    requires Conserved(cfg, s)
    ensures forall k | 0 <= k < |s.received| :: s.received[k] < s.queue.next
    ensures forall j, k | 0 <= j < k < |s.received| :: s.received[j] != s.received[k]
  {
    hide Sum;
    forall k | 0 <= k < |s.received| ensures s.received[k] < s.queue.next {
      CountMember(s.received, s.received[k]);
      assert Places(s, s.received[k]) == if s.received[k] < s.queue.next then 1 else 0;
    }
    forall j, k | 0 <= j < k < |s.received| ensures s.received[j] != s.received[k] {
      assert Places(s, s.received[j]) == if s.received[j] < s.queue.next then 1 else 0;
      CountOnce(s.received, j, k);
    }
  }

  /** What has been handed over is deliverable, and the last record of a rejection is rejected. */
  lemma HandedIsDeliverable(cfg: Config, s: State)
    requires Kinds(cfg, s) && Judged(cfg, s) && Windowed(cfg, s)
    requires forall j, k | 0 <= j < k < |s.received| :: s.received[j] != s.received[k]
    ensures Deliverable(cfg, s.handed)
    ensures s.finalErr.Some? ==> RejectsLast(cfg, s.handed)
  {
    hide AllAccepted;
    var d := s.handed;
    forall k | 0 <= k < |d| ensures d[k] == s.received[k] == Sent(s)[k] {
    }
  }

  /** A schedule that starts a combination after a rejection has delivered such an order. */
  lemma StartMeansEarlyRejection(cfg: Config, steps: seq<Step>, step: Step)
    requires StartsAfterRejection(cfg, steps, step)
    ensures RejectsEarly(cfg, After(cfg, steps).handed)
  {
    var s := After(cfg, steps);
    if cfg.n == 0 {
      NothingToDo(cfg, steps);
    } else {
      InvReachable(cfg, steps);
      WindowedReachable(cfg, steps);
      ReceivedOnce(cfg, s);
      HandedIsDeliverable(cfg, s);
      assert s.handed <= s.received;
      hide Inv, Conserved, Sum, Sized, Kinds, Judged, Stopped, Quiet, Decided, Windowed, Deliverable, RejectsLast;
      assert s.queue.next < cfg.n;
    }
  }

  // -------------------------------------- a deliverable order is delivered by a schedule

  lemma {:induction false} AllRunning(ws: seq<Worker>)
    requires forall w | 0 <= w < |ws| :: ws[w].Running?
    ensures Sum(ws, Holding()) == |ws|
  {
    if ws != [] {
      AllRunning(ws[..|ws| - 1]);
    }
  }

  lemma FreeWorker(ws: seq<Worker>) returns (w: nat)
    requires forall w | 0 <= w < |ws| :: ws[w].Running? || ws[w].Claiming?
    requires Sum(ws, Holding()) < |ws|
    ensures w < |ws| && ws[w].Claiming?
  {
    if v: nat :| v < |ws| && ws[v].Claiming? {
      w := v;
    } else {
      AllRunning(ws);
      assert false;
    }
  }

  lemma {:induction false} HolderOf(ws: seq<Worker>, i: nat) returns (w: nat)
    requires Sum(ws, HoldingOf(i)) > 0
    ensures w < |ws| && Holds(ws[w]) && ws[w].i == i
  {
    var n := |ws| - 1;
    if Holds(ws[n]) && ws[n].i == i {
      w := n;
    } else {
      w := HolderOf(ws[..n], i);
    }
  }

  /** The sink has been handed `d` and waits for more; the other claimed combinations are being run. */
  predicate Delivered(cfg: Config, s: State, d: seq<nat>) {
    && s.main.Draining? && s.channel == [] && s.received == s.handed == d && s.faults == []
    && s.finalErr.None? && !s.queue.cancelled && s.queue.next < cfg.n
    && forall w | 0 <= w < |s.workers| :: s.workers[w].Running? || s.workers[w].Claiming?
  }

  /** Combinations are claimed until `i` is among them. */
  lemma ClaimUpTo(cfg: Config, steps: seq<Step>, d: seq<nat>, i: nat) returns (more: seq<Step>)
    requires Feasible(cfg, steps) && Delivered(cfg, After(cfg, steps), d)
    requires i + 1 < cfg.n && i < |d| + cfg.Capacity()
    ensures Feasible(cfg, more) && Delivered(cfg, After(cfg, more), d) && i < After(cfg, more).queue.next
    decreases i + 1 - After(cfg, steps).queue.next
  {
    var s := After(cfg, steps);
    more := steps;
    if s.queue.next <= i {
      InvReachable(cfg, steps);
      var w := FreeWorker(s.workers);
      Extend(cfg, steps, Claim(w));
      hide Inv;
      more := ClaimUpTo(cfg, steps + [Claim(w)], d, i);
    }
  }

  /** A claimed combination that has not been delivered is being run by some worker. */
  lemma RunnerOf(cfg: Config, s: State, d: seq<nat>, i: nat) returns (w: nat)
    requires Conserved(cfg, s) && Delivered(cfg, s, d) && i < s.queue.next && i !in d
    ensures w < |s.workers| && s.workers[w] == Running(i)
  {
    assert Places(s, i) == if i < s.queue.next then 1 else 0;
    CountMember(d, i);
    w := HolderOf(s.workers, i);
  }

  /** The three steps from the end of the run of `i` to the sink. */
  lemma AfterHandOver(cfg: Config, s: State, d: seq<nat>, i: nat, w: nat)
    requires Delivered(cfg, s, d) && w < |s.workers| && s.workers[w] == Running(i) && cfg.run(i).Record?
    requires |s.received| < cfg.n
    ensures Enabled(cfg, s, FinishRun(w))
    ensures var one := Apply(cfg, s, FinishRun(w));
      && Enabled(cfg, one, Send(w))
      && var two := Apply(cfg, one, Send(w));
      && Enabled(cfg, two, Receive)
      && var t := Apply(cfg, two, Receive);
      && (cfg.accepts(d, i) ==> Delivered(cfg, t, d + [i]))
      && (!cfg.accepts(d, i) ==>
            t.finalErr == Some(i) && !t.queue.cancelled && t.queue.next < cfg.n && w < |t.workers| && t.workers[w].Claiming?)
  {
  }

  /** The run of `i` ends and its record is handed to the sink. */
  lemma HandOver(cfg: Config, steps: seq<Step>, d: seq<nat>, i: nat) returns (more: seq<Step>, w: nat)
    requires Feasible(cfg, steps) && Delivered(cfg, After(cfg, steps), d)
    requires i < After(cfg, steps).queue.next && i !in d && cfg.run(i).Record?
    ensures Feasible(cfg, more)
    ensures cfg.accepts(d, i) ==> Delivered(cfg, After(cfg, more), d + [i])
    ensures !cfg.accepts(d, i) ==>
      var t := After(cfg, more);
      t.finalErr == Some(i) && !t.queue.cancelled && t.queue.next < cfg.n && w < |t.workers| && t.workers[w].Claiming?
  {
    var s := After(cfg, steps);
    InvReachable(cfg, steps);
    w := RunnerOf(cfg, s, d, i);
    assert |s.received| < cfg.n;
    AfterHandOver(cfg, s, d, i, w);
    hide Inv, Delivered, Apply, Enabled, Feasible;
    Extend(cfg, steps, FinishRun(w));
    var one := steps + [FinishRun(w)];
    Extend(cfg, one, Send(w));
    var two := one + [Send(w)];
    Extend(cfg, two, Receive);
    more := two + [Receive];
  }

  lemma FrontOfOrder(cfg: Config, d: seq<nat>, k: nat)
    requires Deliverable(cfg, d) && k < |d|
    ensures Deliverable(cfg, d[..k]) && d[k] !in d[..k] && d[k] < k + cfg.Capacity() && cfg.run(d[k]).Record?
  {
  }

  lemma AcceptedFront(cfg: Config, d: seq<nat>, k: nat)
    requires AllAccepted(cfg, d) && k < |d|
    ensures AllAccepted(cfg, d[..k]) && cfg.accepts(d[..k], d[k])
  {
    assert forall j | 0 <= j < k :: d[..k][..j] == d[..j];
  }

  lemma DropTheSender(cfg: Config)
    requires cfg.n > 0
    ensures Feasible(cfg, [DropSender]) && Delivered(cfg, After(cfg, [DropSender]), [])
  {
    Extend(cfg, [], DropSender);
  }

  /** Each deliverable order of accepted records is delivered by a schedule. */
  lemma {:induction false} Deliver(cfg: Config, d: seq<nat>) returns (steps: seq<Step>)
    requires cfg.n > 0 && Deliverable(cfg, d) && AllAccepted(cfg, d) && forall k | 0 <= k < |d| :: d[k] + 1 < cfg.n
    ensures Feasible(cfg, steps) && Delivered(cfg, After(cfg, steps), d)
  {
    hide Delivered, Feasible, After, Deliverable, AllAccepted;
    if d == [] {
      steps := [DropSender];
      DropTheSender(cfg);
    } else {
      var k := |d| - 1;
      AcceptedFront(cfg, d, k);
      FrontOfOrder(cfg, d, k);
      steps := Deliver(cfg, d[..k]);
      steps := ClaimUpTo(cfg, steps, d[..k], d[k]);
      var w;
      steps, w := HandOver(cfg, steps, d[..k], d[k]);
      assert d == d[..k] + [d[k]];
    }
  }

  /** Where an order is rejected early, a schedule starts a combination after the rejection. */
  lemma AClaimCanFollowTheRejection(cfg: Config, d: seq<nat>) returns (steps: seq<Step>, step: Step)
    requires RejectsEarly(cfg, d)
    ensures StartsAfterRejection(cfg, steps, step)
  {
    var k := |d| - 1;
    FrontOfOrder(cfg, d, k);
    hide Delivered, Feasible, After, Deliverable, AllAccepted;
    steps := Deliver(cfg, d[..k]);
    steps := ClaimUpTo(cfg, steps, d[..k], d[k]);
    var w;
    steps, w := HandOver(cfg, steps, d[..k], d[k]);
    step := Claim(w);
  }

  // -------------------------------------------------------------- the exact condition

  /**
   The promise is kept exactly when every deliverable order that the sink rejects
   contains the last combination.
   */
  lemma PromiseIsKeptExactlyWhen(cfg: Config)
    ensures KeepsThePromise(cfg) <==> forall d :: !RejectsEarly(cfg, d)
  {
    if d :| RejectsEarly(cfg, d) {
      var steps, step := AClaimCanFollowTheRejection(cfg, d);
      assert StartsAfterRejection(cfg, steps, step);
    }
    if steps, step :| StartsAfterRejection(cfg, steps, step) {
      StartMeansEarlyRejection(cfg, steps, step);
    }
  }

  /** The first `k` combinations in order. */
  function Upto(k: nat): (d: seq<nat>)
    ensures |d| == k && forall i | 0 <= i < k :: d[i] == i
  {
    seq(k, i => i)
  }

  function Smaller(a: nat, b: nat): nat { if a < b then a else b }

  lemma {:induction false} OneThreadDeliversInOrder(cfg: Config, d: seq<nat>)
    ensures cfg.jobs <= 1 && Deliverable(cfg, d) ==> d == Upto(|d|)
  {
    if cfg.jobs <= 1 && Deliverable(cfg, d) && d != [] {
      var k := |d| - 1;
      OneThreadDeliversInOrder(cfg, d[..k]);
      assert d[..k] == Upto(k);
      forall j | 0 <= j < k ensures d[j] == j && j != d[k] {
        assert d[..k][j] == d[j];
      }
      if k > 0 {
        var j := Smaller(d[k], k - 1);
        assert d[j] == j;
      }
    }
  }

  /** The sink rejects combination `k` after the ones before it. */
  predicate RejectsInOrder(cfg: Config, k: nat) {
    (forall i | 0 <= i <= k :: cfg.run(i).Record?) && AllAccepted(cfg, Upto(k)) && !cfg.accepts(Upto(k), k)
  }

  /** With one thread it is kept exactly when the first record rejected in order, if any, is the last one. */
  lemma PromiseOfOneThread(cfg: Config)
    ensures cfg.jobs <= 1 ==>
      (KeepsThePromise(cfg) <==> forall k | 0 <= k < cfg.n - 1 :: !RejectsInOrder(cfg, k))
  {
    hide KeepsThePromise;
    PromiseIsKeptExactlyWhen(cfg);
    if cfg.jobs <= 1 {
      if d :| RejectsEarly(cfg, d) {
        var k := |d| - 1;
        OneThreadDeliversInOrder(cfg, d);
        assert d[..k] == Upto(k) && d[k] == k;
        forall i | 0 <= i <= k ensures cfg.run(i).Record? {
          assert d[i] == i;
        }
        assert RejectsInOrder(cfg, k);
      }
      if k :| 0 <= k < cfg.n - 1 && RejectsInOrder(cfg, k) {
        assert Upto(k + 1)[..k] == Upto(k);
        assert RejectsEarly(cfg, Upto(k + 1));
      }
    }
  }

  /** Whatever the runs and the sink do, it is kept exactly for at most one combination. */
  lemma PromiseOfSize(n: nat, jobs: nat)
    ensures (forall run: nat -> RunResult, accepts: (seq<nat>, nat) -> bool :: KeepsThePromise(Config(n, jobs, run, accepts)))
       <==> n <= 1
  {
    if n <= 1 {
      forall run: nat -> RunResult, accepts: (seq<nat>, nat) -> bool ensures KeepsThePromise(Config(n, jobs, run, accepts)) {
        PromiseIsKeptExactlyWhen(Config(n, jobs, run, accepts));
      }
    } else {
      var run: nat -> RunResult := i => Record;
      var accepts: (seq<nat>, nat) -> bool := (h, i) => false;
      var cfg := Config(n, jobs, run, accepts);
      PromiseIsKeptExactlyWhen(cfg);
      assert RejectsEarly(cfg, [0]);
      assert !KeepsThePromise(Config(n, jobs, run, accepts));
    }
  }
}

/** The sweep of `crates/sim/src/sweep.rs` as interleaved steps of its threads. */
module SweepProtocol {
  import opened Wrappers

  // Worker threads share a work queue behind a mutex and send their records over a
  // bounded channel to the thread that drains it. Every critical section and every
  // channel operation is one atomic step of a state machine. A schedule is any
  // sequence of enabled steps, so a statement about all schedules is a statement
  // about all interleavings.

  /** How the run of one combination ends: a record, a fatal error or a panic. */
  datatype RunResult = Record | Fatal | Panic

  /**
   A sweep of `n` combinations on `jobs` threads. `run(i)` is how combination `i`
   ends, and `accepts(h, i)` is whether `on_result` accepts record `i` after it
   has been handed the records `h`.
   */
  datatype Config = Config(n: nat, jobs: nat, run: nat -> RunResult, accepts: (seq<nat>, nat) -> bool)
  {
    function Capacity(): (c: nat)
      ensures c >= 1
    {
      if jobs >= 1 then jobs else 1
    }
  }

  // ---------------------------------------------------------------- work queue

  datatype Queue = Queue(next: nat, cancelled: bool)

  /** The claim rule of the queue on values. */
  function Claimed(q: Queue, len: nat): (Option<nat>, Queue) {
    if q.cancelled || q.next >= len then (None, q) else (Some(q.next), q.(next := q.next + 1))
  }

  /** The queue as the workers share it. */
  class WorkQueue {
    var next: nat
    var cancelled: bool

    constructor ()
      ensures Value() == Queue(0, false)
    {
      next, cancelled := 0, false;
    }

    ghost function Value(): Queue
      reads this
    {
      Queue(next, cancelled)
    }

    method ClaimNextUnlessCancelled(len: nat) returns (i: Option<nat>)
      modifies this
      ensures (i, Value()) == Claimed(old(Value()), len)
      ensures i.Some? <==> !old(cancelled) && old(next) < len
      ensures i.Some? ==> i.value == old(next) && next == old(next) + 1
      ensures i.None? ==> next == old(next)
      ensures cancelled == old(cancelled)
    {
      if cancelled || next >= len {
        return None;
      }
      i := Some(next);
      next := next + 1;
    }
  }

  // ------------------------------------------------------------- state machine

  datatype Worker =
    | Claiming
    | Running(i: nat)
    | Sending(i: nat)
    | Failing(i: nat)
    | Cancelling
    | Exited

  datatype SweepResult = SweepOk | Rejected(i: nat) | FatalRun(i: nat) | PanickedRun(i: nat)

  datatype MainThread =
    | HoldingSender
    | Draining
    | MustCancel
    | DrainEnded
    | TakingFatal
    | TakingPanic
    | Returned(result: SweepResult)

  /**
   `received` and `faults` are histories: the records taken from the channel (the
   source keeps only their number) and the runs whose error or panic was stored,
   both in order. `handed` is the history of the calls of `on_result`.
   */
  datatype State = State(
    queue: Queue,
    workers: seq<Worker>,
    channel: seq<nat>,
    firstFatal: Option<nat>,
    firstPanic: Option<nat>,
    main: MainThread,
    finalErr: Option<nat>,
    received: seq<nat>,
    handed: seq<nat>,
    faults: seq<nat>)

  datatype Step =
    | Claim(w: nat)
    | FinishRun(w: nat)
    | Send(w: nat)
    | StoreFault(w: nat)
    | Cancel(w: nat)
    | DropSender
    | Receive
    | Disconnect
    | CancelAfterReject
    | FinishDrain
    | ConcludeDrain
    | TakeFatal
    | TakePanic

  function Init(cfg: Config): State {
    State(Queue(0, false),
          if cfg.n == 0 then [] else seq(cfg.Capacity(), _ => Claiming),
          [], None, None,
          if cfg.n == 0 then Returned(SweepOk) else HoldingSender,
          None, [], [], [])
  }

  predicate AllExited(ws: seq<Worker>) {
    forall w | 0 <= w < |ws| :: ws[w].Exited?
  }

  predicate Enabled(cfg: Config, s: State, step: Step) {
    match step
    case Claim(w) => w < |s.workers| && s.workers[w].Claiming?
    case FinishRun(w) => w < |s.workers| && s.workers[w].Running?
    // a full channel blocks the sender as long as the receiver is alive
    case Send(w) => w < |s.workers| && s.workers[w].Sending? && (s.main.Returned? || |s.channel| < cfg.Capacity())
    case StoreFault(w) => w < |s.workers| && s.workers[w].Failing?
    case Cancel(w) => w < |s.workers| && s.workers[w].Cancelling?
    case DropSender => s.main.HoldingSender?
    case Receive => s.main.Draining? && |s.received| < cfg.n && s.channel != []
    case Disconnect => s.main.Draining? && |s.received| < cfg.n && s.channel == [] && AllExited(s.workers)
    case CancelAfterReject => s.main.MustCancel?
    case FinishDrain => s.main.Draining? && |s.received| >= cfg.n
    case ConcludeDrain => s.main.DrainEnded?
    case TakeFatal => s.main.TakingFatal?
    case TakePanic => s.main.TakingPanic?
  }

  function Become(s: State, w: nat, x: Worker): State
    requires w < |s.workers|
  {
    s.(workers := s.workers[w := x])
  }

  function StoreIfEmpty(slot: Option<nat>, i: nat): Option<nat> {
    if slot.None? then Some(i) else slot
  }

  function Apply(cfg: Config, s: State, step: Step): State
    requires Enabled(cfg, s, step)
  {
    match step
    case Claim(w) =>
      var (i, q) := Claimed(s.queue, cfg.n);
      Become(s.(queue := q), w, if i.Some? then Running(i.value) else Exited)
    case FinishRun(w) =>
      var i := s.workers[w].i;
      Become(s, w, if cfg.run(i).Record? then Sending(i) else Failing(i))
    case Send(w) =>
      if s.main.Returned? then Become(s, w, Exited)
      else Become(s.(channel := s.channel + [s.workers[w].i]), w, Claiming)
    case StoreFault(w) =>
      var i := s.workers[w].i;
      var s' := Become(s.(faults := s.faults + [i]), w, Cancelling);
      if cfg.run(i).Fatal? then s'.(firstFatal := StoreIfEmpty(s.firstFatal, i))
      else s'.(firstPanic := StoreIfEmpty(s.firstPanic, i))
    case Cancel(w) => Become(s.(queue := s.queue.(cancelled := true)), w, Exited)
    case DropSender => s.(main := Draining)
    case Receive =>
      var i := s.channel[0];
      var s' := s.(channel := s.channel[1..], received := s.received + [i]);
      if s.finalErr.Some? then s'
      else if cfg.accepts(s.handed, i) then s'.(handed := s.handed + [i])
      else s'.(handed := s.handed + [i], finalErr := Some(i), main := MustCancel)
    case Disconnect => s.(main := DrainEnded)
    case CancelAfterReject => s.(queue := s.queue.(cancelled := true), main := Draining)
    case FinishDrain => s.(main := DrainEnded)
    case ConcludeDrain => s.(main := if s.finalErr.Some? then Returned(Rejected(s.finalErr.value)) else TakingFatal)
    case TakeFatal =>
      if s.firstFatal.Some? then s.(main := Returned(FatalRun(s.firstFatal.value)), firstFatal := None)
      else s.(main := TakingPanic)
    case TakePanic =>
      if s.firstPanic.Some? then s.(main := Returned(PanickedRun(s.firstPanic.value)), firstPanic := None)
      else s.(main := Returned(SweepOk))
  }

  /** The scope has joined every worker and the call returns. */
  predicate Final(s: State) {
    s.main.Returned? && AllExited(s.workers)
  }

  // ------------------------------------------------------------------ schedules

  predicate Feasible(cfg: Config, steps: seq<Step>)
    decreases |steps|, 0
  {
    steps == [] ||
    (Feasible(cfg, steps[..|steps|-1]) && Enabled(cfg, After(cfg, steps[..|steps|-1]), steps[|steps|-1]))
  }

  function After(cfg: Config, steps: seq<Step>): State
    requires Feasible(cfg, steps)
    decreases |steps|, 1
  {
    if steps == [] then Init(cfg) else Apply(cfg, After(cfg, steps[..|steps|-1]), steps[|steps|-1])
  }

  // ------------------------------------------------------ sums over the workers

  function Sum(ws: seq<Worker>, f: Worker -> nat): nat {
    if ws == [] then 0 else Sum(ws[..|ws|-1], f) + f(ws[|ws|-1])
  }

  lemma {:induction false} SumUpdate(ws: seq<Worker>, f: Worker -> nat, w: nat, x: Worker)
    requires w < |ws|
    ensures Sum(ws[w := x], f) + f(ws[w]) == Sum(ws, f) + f(x)
  {
    var k, ws' := |ws| - 1, ws[w := x];
    if w == k {
      assert ws'[..k] == ws[..k];
    } else {
      SumUpdate(ws[..k], f, w, x);
      assert ws'[..k] == ws[..k][w := x];
    }
  }

  lemma {:induction false} SumAtLeast(ws: seq<Worker>, f: Worker -> nat, w: nat)
    requires w < |ws|
    ensures f(ws[w]) <= Sum(ws, f)
  {
    if w < |ws| - 1 {
      SumAtLeast(ws[..|ws|-1], f, w);
    }
  }

  lemma {:induction false} SumBound(ws: seq<Worker>, f: Worker -> nat, c: nat)
    requires forall w | 0 <= w < |ws| :: f(ws[w]) <= c
    ensures Sum(ws, f) <= c * |ws|
  {
    if ws != [] {
      SumBound(ws[..|ws|-1], f, c);
      assert c * |ws| == c * (|ws| - 1) + c;
    }
  }

  lemma {:induction false} SumMonotone(ws: seq<Worker>, f: Worker -> nat, g: Worker -> nat)
    requires forall x :: f(x) <= g(x)
    ensures Sum(ws, f) <= Sum(ws, g)
  {
    if ws != [] {
      SumMonotone(ws[..|ws|-1], f, g);
    }
  }

  /** The worker has claimed a combination and not passed it on yet. */
  predicate Holds(x: Worker) {
    x.Running? || x.Sending? || x.Failing?
  }

  function Holding(): Worker -> nat {
    (x: Worker) => if Holds(x) then 1 else 0
  }

  function HoldingOf(i: nat): Worker -> nat {
    (x: Worker) => if Holds(x) && x.i == i then 1 else 0
  }

  /** The worker has not met an error and has not stopped. */
  function Active(): Worker -> nat {
    (x: Worker) => if x.Cancelling? || x.Exited? then 0 else 1
  }

  function Count(h: seq<nat>, i: nat): nat {
    if h == [] then 0 else Count(h[..|h|-1], i) + if h[|h|-1] == i then 1 else 0
  }

  lemma {:induction false} CountFirst(h: seq<nat>, i: nat)
    requires h != []
    ensures Count(h, i) == Count(h[1..], i) + if h[0] == i then 1 else 0
  {
    var k := |h| - 1;
    if k > 0 {
      CountFirst(h[..k], i);
      assert h[..k][1..] == h[1..][..k-1];
    }
  }

  lemma CountSnoc(h: seq<nat>, x: nat, i: nat)
    ensures Count(h + [x], i) == Count(h, i) + if x == i then 1 else 0
  {
    assert (h + [x])[..|h|] == h;
  }

  // ------------------------------------------------------------------ invariant

  predicate AllAccepted(cfg: Config, h: seq<nat>) {
    forall k | 0 <= k < |h| :: cfg.accepts(h[..k], h[k])
  }

  /** `i` is the first of the faults that ended in `r`. */
  predicate IsFirst(cfg: Config, faults: seq<nat>, r: RunResult, i: nat) {
    exists k | 0 <= k < |faults| ::
      faults[k] == i && cfg.run(i) == r && forall j | 0 <= j < k :: cfg.run(faults[j]) != r
  }

  function FirstWith(cfg: Config, faults: seq<nat>, r: RunResult): (first: Option<nat>)
    ensures first.Some? ==> first.value in faults && cfg.run(first.value) == r
    ensures first.None? <==> forall k | 0 <= k < |faults| :: cfg.run(faults[k]) != r
    ensures first.Some? ==> IsFirst(cfg, faults, r, first.value)
  {
    if faults == [] then None
    else
      var i := faults[|faults|-1];
      var first := FirstWith(cfg, faults[..|faults|-1], r);
      if first.None? && cfg.run(i) == r then Some(i) else first
  }

  /** What the call returns, in terms of the histories. */
  function Verdict(cfg: Config, s: State): SweepResult {
    if s.finalErr.Some? then Rejected(s.finalErr.value)
    else
      var fatal := FirstWith(cfg, s.faults, Fatal);
      if fatal.Some? then FatalRun(fatal.value)
      else
        var panic := FirstWith(cfg, s.faults, Panic);
        if panic.Some? then PanickedRun(panic.value) else SweepOk
  }

  predicate PastDrain(m: MainThread) {
    !m.HoldingSender? && !m.Draining? && !m.MustCancel?
  }

  /** In how many places combination `i` is. */
  function Places(s: State, i: nat): nat {
    Sum(s.workers, HoldingOf(i)) + Count(s.channel, i) + Count(s.received, i) + Count(s.faults, i)
  }

  /** Every claimed combination is in exactly one place and nothing else is anywhere. */
  ghost predicate Conserved(cfg: Config, s: State) {
    && s.queue.next <= cfg.n
    && s.queue.next == Sum(s.workers, Holding()) + |s.channel| + |s.received| + |s.faults|
    && forall i: nat :: Places(s, i) == if i < s.queue.next then 1 else 0
  }

  predicate Sized(cfg: Config, s: State) {
    && |s.workers| == cfg.Capacity()
    && |s.channel| <= cfg.Capacity()
    && Sum(s.workers, Active()) + |s.faults| <= cfg.Capacity()
    && (s.finalErr.Some? ==> s.queue.next <= |s.handed| + 2 * cfg.Capacity())
  }

  predicate Kinds(cfg: Config, s: State) {
    && (forall w | 0 <= w < |s.workers| && s.workers[w].Sending? :: cfg.run(s.workers[w].i).Record?)
    && (forall w | 0 <= w < |s.workers| && s.workers[w].Failing? :: !cfg.run(s.workers[w].i).Record?)
    && (forall k | 0 <= k < |s.channel| :: cfg.run(s.channel[k]).Record?)
    && (forall k | 0 <= k < |s.received| :: cfg.run(s.received[k]).Record?)
    && (forall k | 0 <= k < |s.faults| :: !cfg.run(s.faults[k]).Record?)
  }

  predicate Judged(cfg: Config, s: State) {
    && s.handed <= s.received
    && (s.finalErr.None? ==> s.handed == s.received && AllAccepted(cfg, s.handed))
    && (s.finalErr.Some? ==>
          && s.handed != []
          && var k := |s.handed| - 1;
          && s.handed[k] == s.finalErr.value
          && AllAccepted(cfg, s.handed[..k])
          && !cfg.accepts(s.handed[..k], s.handed[k]))
    && (s.main.MustCancel? ==> s.finalErr.Some? && s.handed == s.received)
    && (s.finalErr.Some? ==> s.queue.cancelled || s.main.MustCancel?)
  }

  predicate Stopped(cfg: Config, s: State) {
    && (s.queue.cancelled ==> s.finalErr.Some? || s.faults != [])
    && (s.faults != [] ==> s.queue.cancelled || exists w :: 0 <= w < |s.workers| && s.workers[w].Cancelling?)
    && (forall w | 0 <= w < |s.workers| && s.workers[w].Exited? :: s.queue.cancelled || s.queue.next >= cfg.n)
    && (forall w | 0 <= w < |s.workers| && s.workers[w].Cancelling? :: s.faults != [])
  }

  /** Once the drain has ended nothing is claimed, held or in flight any more. */
  predicate Quiet(cfg: Config, s: State) {
    PastDrain(s.main) ==>
      Sum(s.workers, Holding()) == 0 && s.channel == [] && (s.queue.cancelled || s.queue.next >= cfg.n)
  }

  predicate Decided(cfg: Config, s: State) {
    && (!s.main.Returned? ==> s.firstFatal == FirstWith(cfg, s.faults, Fatal))
    && (!s.main.Returned? ==> s.firstPanic == FirstWith(cfg, s.faults, Panic))
    && (s.main.TakingFatal? || s.main.TakingPanic? ==> s.finalErr.None?)
    && (s.main.TakingPanic? ==> FirstWith(cfg, s.faults, Fatal).None?)
    && (s.main.Returned? ==> s.main.result == Verdict(cfg, s))
  }

  ghost predicate Inv(cfg: Config, s: State) {
    Conserved(cfg, s) && Sized(cfg, s) && Kinds(cfg, s) && Judged(cfg, s) && Stopped(cfg, s) && Quiet(cfg, s)
    && Decided(cfg, s)
  }

  lemma InvInit(cfg: Config)
    requires cfg.n > 0
    ensures Inv(cfg, Init(cfg))
  {
    var s := Init(cfg);
    SumBound(s.workers, Holding(), 0);
    SumBound(s.workers, Active(), 1);
    forall i: nat ensures Places(s, i) == 0 {
      SumBound(s.workers, HoldingOf(i), 0);
    }
  }

  /** The worker that a step is a step of. */
  function WorkerOf(step: Step): Option<nat> {
    match step
    case Claim(w) => Some(w)
    case FinishRun(w) => Some(w)
    case Send(w) => Some(w)
    case StoreFault(w) => Some(w)
    case Cancel(w) => Some(w)
    case _ => None
  }

  /** A worker step changes one worker. */
  lemma WorkerStep(cfg: Config, s: State, step: Step, f: Worker -> nat)
    requires Enabled(cfg, s, step) && WorkerOf(step).Some?
    ensures var w := WorkerOf(step).value;
      && Sum(Apply(cfg, s, step).workers, f) + f(s.workers[w])
         == Sum(s.workers, f) + f(Apply(cfg, s, step).workers[w])
      && f(s.workers[w]) <= Sum(s.workers, f)
  {
    var s', w := Apply(cfg, s, step), WorkerOf(step).value;
    assert s'.workers == s.workers[w := s'.workers[w]];
    SumUpdate(s.workers, f, w, s'.workers[w]);
    SumAtLeast(s.workers, f, w);
  }

  /** A combination that a worker claims, passes on or gives up moves from one place to the next. */
  lemma PlacesByWorker(cfg: Config, s: State, step: Step, i: nat)
    requires Enabled(cfg, s, step) && !(step.Send? && s.main.Returned?) && WorkerOf(step).Some?
    ensures var s' := Apply(cfg, s, step);
      Places(s', i) == Places(s, i) + if s'.queue.next != s.queue.next && i == s.queue.next then 1 else 0
  {
    hide Sum, Count, StoreIfEmpty;
    var s' := Apply(cfg, s, step);
    var f := HoldingOf(i);
    WorkerStep(cfg, s, step, f);
    var w := WorkerOf(step).value;
    var x, x' := s.workers[w], s'.workers[w];
    assert f(x) == if Holds(x) && x.i == i then 1 else 0;
    assert f(x') == if Holds(x') && x'.i == i then 1 else 0;
    if step.Send? {
      CountSnoc(s.channel, x.i, i);
    } else if step.StoreFault? {
      CountSnoc(s.faults, x.i, i);
    }
  }

  lemma PlacesByMain(cfg: Config, s: State, step: Step, i: nat)
    requires Enabled(cfg, s, step) && WorkerOf(step).None?
    ensures Places(Apply(cfg, s, step), i) == Places(s, i) && Apply(cfg, s, step).queue.next == s.queue.next
  {
    hide Sum, Count, FirstWith, Verdict;
    if step.Receive? {
      CountFirst(s.channel, i);
      CountSnoc(s.received, s.channel[0], i);
    }
  }

  lemma PlacesStep(cfg: Config, s: State, step: Step, i: nat)
    requires Enabled(cfg, s, step) && !(step.Send? && s.main.Returned?)
    ensures var s' := Apply(cfg, s, step);
      Places(s', i) == Places(s, i) + if s'.queue.next != s.queue.next && i == s.queue.next then 1 else 0
  {
    hide Apply, Places, Enabled;
    if WorkerOf(step).Some? {
      PlacesByWorker(cfg, s, step, i);
    } else {
      PlacesByMain(cfg, s, step, i);
    }
  }

  lemma ConservedStep(cfg: Config, s: State, step: Step)
    requires Conserved(cfg, s) && Quiet(cfg, s) && Enabled(cfg, s, step)
    ensures Conserved(cfg, Apply(cfg, s, step))
  {
    hide Sum, Count, FirstWith, Verdict;
    var s' := Apply(cfg, s, step);
    if WorkerOf(step).Some? {
      WorkerStep(cfg, s, step, Holding());
    }
    forall i: nat ensures Places(s', i) == if i < s'.queue.next then 1 else 0 {
      assert Places(s, i) == if i < s.queue.next then 1 else 0;
      PlacesStep(cfg, s, step, i);
    }
  }

  lemma SizedStep(cfg: Config, s: State, step: Step)
    requires Conserved(cfg, s) && Sized(cfg, s) && Judged(cfg, s) && Quiet(cfg, s) && Enabled(cfg, s, step)
    ensures Sized(cfg, Apply(cfg, s, step))
  {
    hide Apply, Enabled, Conserved, Sized, Judged, Quiet;
    ConservedStep(cfg, s, step);
    if WorkerOf(step).Some? {
      SizedByWorker(cfg, s, step);
    } else {
      SizedByMain(cfg, s, step);
    }
  }

  lemma SizedByWorker(cfg: Config, s: State, step: Step)
    requires Sized(cfg, s) && Judged(cfg, s) && Enabled(cfg, s, step) && WorkerOf(step).Some?
    requires Conserved(cfg, Apply(cfg, s, step))
    ensures Sized(cfg, Apply(cfg, s, step))
  {
    hide Sum, Places, AllAccepted, StoreIfEmpty;
    SumMonotone(Apply(cfg, s, step).workers, Holding(), Active());
    WorkerStep(cfg, s, step, Active());
  }

  lemma SizedByMain(cfg: Config, s: State, step: Step)
    requires Conserved(cfg, s) && Sized(cfg, s) && Judged(cfg, s) && Enabled(cfg, s, step) && WorkerOf(step).None?
    ensures Sized(cfg, Apply(cfg, s, step))
  {
    hide Sum, Places, FirstWith, Verdict, AllAccepted;
    SumMonotone(s.workers, Holding(), Active());
  }

  lemma KindsByReceive(cfg: Config, s: State)
    requires Kinds(cfg, s) && Enabled(cfg, s, Receive)
    ensures Kinds(cfg, Apply(cfg, s, Receive))
  {
    assert s.channel == [s.channel[0]] + s.channel[1..];
  }

  lemma KindsByOthers(cfg: Config, s: State, step: Step)
    requires Kinds(cfg, s) && Enabled(cfg, s, step) && !step.Receive?
    ensures Kinds(cfg, Apply(cfg, s, step))
  {
    hide StoreIfEmpty, Claimed;
  }

  lemma KindsStep(cfg: Config, s: State, step: Step)
    requires Kinds(cfg, s) && Enabled(cfg, s, step)
    ensures Kinds(cfg, Apply(cfg, s, step))
  {
    hide Kinds, Enabled, Apply;
    if step.Receive? {
      KindsByReceive(cfg, s);
    } else {
      KindsByOthers(cfg, s, step);
    }
  }

  lemma AcceptedNext(cfg: Config, h: seq<nat>, x: nat)
    requires AllAccepted(cfg, h)
    ensures (h + [x])[..|h|] == h && (cfg.accepts(h, x) ==> AllAccepted(cfg, h + [x]))
  {
    var more := h + [x];
    assert more[..|h|] == h;
    forall k | 0 <= k < |h| ensures more[..k] == h[..k] {
    }
  }

  lemma JudgedByReceive(cfg: Config, s: State)
    requires Judged(cfg, s) && Enabled(cfg, s, Receive)
    ensures Judged(cfg, Apply(cfg, s, Receive))
  {
    hide FirstWith, Verdict, AllAccepted;
    if s.finalErr.None? {
      AcceptedNext(cfg, s.handed, s.channel[0]);
    }
  }

  lemma JudgedByOthers(cfg: Config, s: State, step: Step)
    requires Judged(cfg, s) && Enabled(cfg, s, step) && !step.Receive?
    ensures Judged(cfg, Apply(cfg, s, step))
  {
    hide FirstWith, Verdict, AllAccepted, StoreIfEmpty;
  }

  lemma JudgedStep(cfg: Config, s: State, step: Step)
    requires Judged(cfg, s) && Enabled(cfg, s, step)
    ensures Judged(cfg, Apply(cfg, s, step))
  {
    hide Judged, Enabled, Apply;
    if step.Receive? {
      JudgedByReceive(cfg, s);
    } else {
      JudgedByOthers(cfg, s, step);
    }
  }

  lemma StoppedByWorker(cfg: Config, s: State, step: Step)
    requires Stopped(cfg, s) && Quiet(cfg, s) && Enabled(cfg, s, step) && WorkerOf(step).Some?
    ensures Stopped(cfg, Apply(cfg, s, step))
  {
    var s' := Apply(cfg, s, step);
    if step.Send? {
      SumAtLeast(s.workers, Holding(), step.w);
    }
    hide Sum, Quiet, FirstWith, Verdict, StoreIfEmpty;
    match step
    case StoreFault(w) => assert s'.workers[w].Cancelling?;
    case Cancel(w) =>
    case Send(w) => OthersStillCancelling(s, s', w);
    case Claim(w) => OthersStillCancelling(s, s', w);
    case FinishRun(w) => OthersStillCancelling(s, s', w);
  }

  lemma StoppedByMain(cfg: Config, s: State, step: Step)
    requires Stopped(cfg, s) && Judged(cfg, s) && Enabled(cfg, s, step) && WorkerOf(step).None?
    ensures Stopped(cfg, Apply(cfg, s, step))
  {
    hide Sum, FirstWith, Verdict, AllAccepted;
  }

  lemma StoppedStep(cfg: Config, s: State, step: Step)
    requires Stopped(cfg, s) && Quiet(cfg, s) && Judged(cfg, s) && Enabled(cfg, s, step)
    ensures Stopped(cfg, Apply(cfg, s, step))
  {
    hide Stopped, Quiet, Judged, Enabled, Apply;
    if WorkerOf(step).Some? {
      StoppedByWorker(cfg, s, step);
    } else {
      StoppedByMain(cfg, s, step);
    }
  }

  lemma OthersStillCancelling(s: State, s': State, w: nat)
    requires w < |s.workers| && |s'.workers| == |s.workers| && !s.workers[w].Cancelling?
    requires forall v | 0 <= v < |s.workers| && v != w :: s'.workers[v] == s.workers[v]
    ensures (exists v :: 0 <= v < |s.workers| && s.workers[v].Cancelling?) ==>
            (exists v :: 0 <= v < |s'.workers| && s'.workers[v].Cancelling?)
  {
    if v :| 0 <= v < |s.workers| && s.workers[v].Cancelling? {
      assert s'.workers[v].Cancelling?;
    }
  }

  lemma QuietStep(cfg: Config, s: State, step: Step)
    requires Conserved(cfg, s) && Sized(cfg, s) && Stopped(cfg, s) && Quiet(cfg, s) && Enabled(cfg, s, step)
    ensures Quiet(cfg, Apply(cfg, s, step))
  {
    if WorkerOf(step).Some? {
      WorkerStep(cfg, s, step, Holding());
    } else if step.Disconnect? {
      SumBound(s.workers, Holding(), 0);
      assert s.workers[0].Exited?;
    }
  }

  /** A fault is stored while the drain goes on: its worker still holds a sender. */
  lemma DecidedByFault(cfg: Config, s: State, w: nat)
    requires Decided(cfg, s) && Quiet(cfg, s) && Kinds(cfg, s) && Enabled(cfg, s, StoreFault(w))
    ensures Decided(cfg, Apply(cfg, s, StoreFault(w)))
  {
    FaultWhileDraining(cfg, s, w);
    FirstWithSnoc(cfg, s.faults, s.workers[w].i, Fatal);
    FirstWithSnoc(cfg, s.faults, s.workers[w].i, Panic);
    hide FirstWith, Quiet, Verdict;
  }

  lemma FaultWhileDraining(cfg: Config, s: State, w: nat)
    requires Quiet(cfg, s) && Enabled(cfg, s, StoreFault(w))
    ensures !PastDrain(s.main)
  {
    SumAtLeast(s.workers, Holding(), w);
  }

  lemma FirstWithSnoc(cfg: Config, faults: seq<nat>, i: nat, r: RunResult)
    ensures FirstWith(cfg, faults + [i], r)
         == if FirstWith(cfg, faults, r).None? && cfg.run(i) == r then Some(i) else FirstWith(cfg, faults, r)
  {
    assert (faults + [i])[..|faults|] == faults;
  }

  lemma DecidedByOthers(cfg: Config, s: State, step: Step)
    requires Decided(cfg, s) && Enabled(cfg, s, step) && !step.StoreFault?
    ensures Decided(cfg, Apply(cfg, s, step))
  {
    hide FirstWith, Sum, Claimed, AllExited;
  }

  lemma DecidedStep(cfg: Config, s: State, step: Step)
    requires Decided(cfg, s) && Quiet(cfg, s) && Kinds(cfg, s) && Enabled(cfg, s, step)
    ensures Decided(cfg, Apply(cfg, s, step))
  {
    hide Decided, Quiet, Kinds, Enabled, Apply;
    if step.StoreFault? {
      DecidedByFault(cfg, s, step.w);
    } else {
      DecidedByOthers(cfg, s, step);
    }
  }

  lemma InvStep(cfg: Config, s: State, step: Step)
    requires Inv(cfg, s) && Enabled(cfg, s, step)
    ensures Inv(cfg, Apply(cfg, s, step))
  {
    ConservedStep(cfg, s, step);
    SizedStep(cfg, s, step);
    KindsStep(cfg, s, step);
    JudgedStep(cfg, s, step);
    StoppedStep(cfg, s, step);
    QuietStep(cfg, s, step);
    DecidedStep(cfg, s, step);
  }

  lemma {:induction false} InvReachable(cfg: Config, steps: seq<Step>)
    requires cfg.n > 0 && Feasible(cfg, steps)
    ensures Inv(cfg, After(cfg, steps))
  {
    if steps == [] {
      InvInit(cfg);
    } else {
      var k := |steps| - 1;
      InvReachable(cfg, steps[..k]);
      InvStep(cfg, After(cfg, steps[..k]), steps[k]);
    }
  }

  // -------------------------------------------------------- progress and the end

  /** No deadlock: as long as the call has not returned, some thread can move. */
  lemma SomeStepIsEnabled(cfg: Config, steps: seq<Step>) returns (step: Step)
    requires Feasible(cfg, steps) && !Final(After(cfg, steps))
    ensures Enabled(cfg, After(cfg, steps), step)
  {
    var s := After(cfg, steps);
    if cfg.n == 0 {
      NothingToDo(cfg, steps);
      assert false;
    }
    InvReachable(cfg, steps);
    if w: nat :| w < |s.workers| && !s.workers[w].Exited? && (s.workers[w].Sending? ==> s.channel == [] || s.main.Returned?) {
      return match s.workers[w]
        case Claiming => Claim(w)
        case Running(_) => FinishRun(w)
        case Sending(_) => Send(w)
        case Failing(_) => StoreFault(w)
        case _ => Cancel(w);
    }
    match s.main
    case HoldingSender => step := DropSender;
    case Draining => step := if |s.received| >= cfg.n then FinishDrain else if s.channel != [] then Receive else Disconnect;
    case MustCancel => step := CancelAfterReject;
    case DrainEnded => step := ConcludeDrain;
    case TakingFatal => step := TakeFatal;
    case TakingPanic => step := TakePanic;
    case Returned(_) => assert AllExited(s.workers);
  }

  lemma {:induction false} NothingToDo(cfg: Config, steps: seq<Step>)
    requires cfg.n == 0 && Feasible(cfg, steps)
    ensures steps == []
  {
    if steps != [] {
      NothingToDo(cfg, steps[..|steps|-1]);
    }
  }

  function Todo(): Worker -> nat {
    (x: Worker) =>
      match x
      case Claiming => 1
      case Running(_) => 5
      case Sending(_) => 4
      case Failing(_) => 4
      case Cancelling => 3
      case Exited => 0
  }

  function MainTodo(m: MainThread): nat {
    match m
    case HoldingSender => 7
    case MustCancel => 6
    case Draining => 5
    case DrainEnded => 4
    case TakingFatal => 3
    case TakingPanic => 2
    case Returned(_) => 0
  }

  function Remaining(cfg: Config, s: State): int {
    5 * (cfg.n - s.queue.next) + Sum(s.workers, Todo()) + 2 * |s.channel| + MainTodo(s.main)
  }

  lemma EveryStepIsProgress(cfg: Config, s: State, step: Step)
    requires Enabled(cfg, s, step)
    ensures Remaining(cfg, Apply(cfg, s, step)) < Remaining(cfg, s)
  {
    if WorkerOf(step).Some? {
      WorkerStep(cfg, s, step, Todo());
    }
  }

  /** Every run terminates: no schedule is longer than this, whatever the runs and `on_result` do. */
  lemma {:induction false} SchedulesAreBounded(cfg: Config, steps: seq<Step>)
    requires Feasible(cfg, steps)
    ensures |steps| <= 5 * cfg.n + cfg.Capacity() + 7
  {
    if cfg.n == 0 {
      NothingToDo(cfg, steps);
    } else {
      RemainingAfter(cfg, steps);
      InvReachable(cfg, steps);
    }
  }

  lemma {:induction false} RemainingAfter(cfg: Config, steps: seq<Step>)
    requires Feasible(cfg, steps)
    ensures |steps| + Remaining(cfg, After(cfg, steps)) <= 5 * cfg.n + cfg.Capacity() + 7
  {
    if steps == [] {
      SumBound(Init(cfg).workers, Todo(), 1);
    } else {
      var k := |steps| - 1;
      RemainingAfter(cfg, steps[..k]);
      EveryStepIsProgress(cfg, After(cfg, steps[..k]), steps[k]);
    }
  }

  // ------------------------------------------------------------ what is returned

  /** The records `h` are those of all combinations, each once. */
  ghost predicate AllRecordsOnce(n: nat, h: seq<nat>) {
    forall i: nat :: Count(h, i) == if i < n then 1 else 0
  }

  lemma FaultIsClaimed(cfg: Config, s: State, i: nat)
    requires Conserved(cfg, s) && i in s.faults
    ensures i < s.queue.next <= cfg.n
  {
    hide Sum;
    CountMember(s.faults, i);
    assert Places(s, i) == if i < s.queue.next then 1 else 0;
  }

  /**
   The call returns Ok exactly when every combination gave a record that was
   handed to `on_result` once and accepted; otherwise it names the rejected
   record, or the first fatal run, or the first panic.
   */
  lemma ReturnedResult(cfg: Config, steps: seq<Step>)
    requires Feasible(cfg, steps) && Final(After(cfg, steps))
    ensures var s := After(cfg, steps);
      && (s.main.result.SweepOk? <==> AllRecordsOnce(cfg.n, s.handed) && AllAccepted(cfg, s.handed))
      && (s.main.result.SweepOk? ==> forall i | 0 <= i < cfg.n :: cfg.run(i).Record?)
      && (s.main.result.Rejected? ==>
            s.handed != [] && var k := |s.handed| - 1;
            s.main.result.i == s.handed[k] && !cfg.accepts(s.handed[..k], s.handed[k]) && AllAccepted(cfg, s.handed[..k]))
      && (s.main.result.FatalRun? ==> s.main.result.i < cfg.n && IsFirst(cfg, s.faults, Fatal, s.main.result.i))
      && (s.main.result.PanickedRun? ==>
            && s.main.result.i < cfg.n && IsFirst(cfg, s.faults, Panic, s.main.result.i)
            && forall k | 0 <= k < |s.faults| :: cfg.run(s.faults[k]).Panic?)
  {
    var s := After(cfg, steps);
    if cfg.n == 0 {
      NothingToDo(cfg, steps);
    } else {
      InvReachable(cfg, steps);
      assert s.workers[0].Exited?;
      var r := s.main.result;
      if r.FatalRun? || r.PanickedRun? {
        FaultIsClaimed(cfg, s, r.i);
      }
      if r.SweepOk? {
        NoFaultWhenOk(cfg, s);
        forall i: nat ensures Count(s.handed, i) == if i < cfg.n then 1 else 0 {
          assert Places(s, i) == if i < s.queue.next then 1 else 0;
          SumMonotone(s.workers, HoldingOf(i), Holding());
        }
        forall i | 0 <= i < cfg.n ensures cfg.run(i).Record? {
          assert Count(s.handed, i) == 1;
          CountMember(s.handed, i);
        }
      }
      if AllRecordsOnce(cfg.n, s.handed) && AllAccepted(cfg, s.handed) {
        OkWhenAllHanded(cfg, s);
      }
    }
  }

  lemma {:induction false} CountMember(h: seq<nat>, i: nat)
    ensures Count(h, i) > 0 <==> i in h
  {
    if h != [] {
      var k := |h| - 1;
      CountMember(h[..k], i);
      assert h == h[..k] + [h[k]];
    }
  }

  lemma {:induction false} CountNone(h: seq<nat>)
    requires forall i: nat :: Count(h, i) == 0
    ensures h == []
  {
    if h != [] {
      CountMember(h, h[0]);
    }
  }

  /** No error is lost: an Ok result means that no run failed and that everything was claimed. */
  lemma NoFaultWhenOk(cfg: Config, s: State)
    requires Inv(cfg, s) && Final(s) && s.main.result.SweepOk?
    ensures s.faults == [] && s.finalErr.None? && s.queue.next == cfg.n && s.handed == s.received
  {
    if s.faults != [] {
      assert false;
    }
    assert s.workers[0].Exited?;
  }

  lemma OkWhenAllHanded(cfg: Config, s: State)
    requires cfg.n > 0 && Inv(cfg, s) && Final(s)
    requires AllRecordsOnce(cfg.n, s.handed) && AllAccepted(cfg, s.handed)
    ensures s.main.result.SweepOk?
  {
    if s.finalErr.Some? {
      assert false;
    }
    forall i: nat ensures Count(s.faults, i) == 0 {
      assert Count(s.handed, i) == if i < cfg.n then 1 else 0;
      assert Places(s, i) == if i < s.queue.next then 1 else 0;
    }
    CountNone(s.faults);
  }

  /** When no run can fail and `on_result` accepts everything, every schedule ends in Ok. */
  lemma OkWhenNothingFails(cfg: Config, steps: seq<Step>)
    requires Feasible(cfg, steps) && Final(After(cfg, steps))
    requires forall i | 0 <= i < cfg.n :: cfg.run(i).Record?
    requires forall h, i :: cfg.accepts(h, i)
    ensures After(cfg, steps).main.result.SweepOk?
  {
    var s := After(cfg, steps);
    if cfg.n == 0 {
      NothingToDo(cfg, steps);
    } else {
      InvReachable(cfg, steps);
      if s.faults != [] {
        var i := s.faults[0];
        assert Places(s, i) == if i < s.queue.next then 1 else 0;
        CountMember(s.faults, i);
        assert false;
      }
    }
  }

  /** The receiver outlives every send: a worker never finds the channel closed. */
  lemma SendNeverFails(cfg: Config, steps: seq<Step>, w: nat)
    requires Feasible(cfg, steps) && Enabled(cfg, After(cfg, steps), Send(w))
    ensures !After(cfg, steps).main.Returned?
  {
    if cfg.n == 0 {
      NothingToDo(cfg, steps);
    } else {
      InvReachable(cfg, steps);
      SumAtLeast(After(cfg, steps).workers, Holding(), w);
    }
  }

  // ---------------------------------------------------------------- cancellation

  /**
   Backpressure: the workers are never more than twice the number of threads
   ahead of the receiver, and once `on_result` has rejected a record they start
   at most that many combinations beyond the records it was handed.
   */
  lemma WorkersStayClose(cfg: Config, steps: seq<Step>)
    requires cfg.n > 0 && Feasible(cfg, steps)
    ensures var s := After(cfg, steps);
      && s.queue.next <= |s.received| + 2 * cfg.Capacity()
      && (s.finalErr.Some? ==> s.queue.next <= |s.handed| + 2 * cfg.Capacity())
  {
    InvReachable(cfg, steps);
    SumMonotone(After(cfg, steps).workers, Holding(), Active());
  }

  /** There are as many workers as threads asked for, at least one, and the channel holds no more records than that. */
  lemma WorkersAndChannel(cfg: Config, steps: seq<Step>)
    requires cfg.n > 0 && Feasible(cfg, steps)
    ensures var s, threads := After(cfg, steps), if cfg.jobs > 1 then cfg.jobs else 1;
      |s.workers| == threads && |s.channel| <= threads
  {
    InvReachable(cfg, steps);
  }

  lemma {:induction false} FeasiblePrefix(cfg: Config, steps: seq<Step>, more: seq<Step>)
    requires Feasible(cfg, steps + more)
    ensures Feasible(cfg, steps)
  {
    if more == [] {
      assert steps + more == steps;
    } else {
      var k := |more| - 1;
      assert (steps + more)[..|steps + more| - 1] == steps + more[..k];
      FeasiblePrefix(cfg, steps, more[..k]);
    }
  }

  lemma FinalStep(cfg: Config, s: State, step: Step)
    requires Enabled(cfg, s, step)
    ensures var t := Apply(cfg, s, step);
      && (s.finalErr.Some? ==> t.finalErr == s.finalErr && t.handed == s.handed)
      && (s.queue.cancelled ==> t.queue == s.queue)
  {
  }

  /**
   After the first rejection `on_result` is never called again; after the
   cancellation, whoever made it, nothing more is claimed.
   */
  lemma {:induction false} RejectionAndCancellationAreFinal(cfg: Config, steps: seq<Step>, more: seq<Step>)
    requires Feasible(cfg, steps + more)
    ensures Feasible(cfg, steps)
    ensures var s, t := After(cfg, steps), After(cfg, steps + more);
      && (s.finalErr.Some? ==> t.finalErr == s.finalErr && t.handed == s.handed)
      && (s.queue.cancelled ==> t.queue == s.queue)
  {
    FeasiblePrefix(cfg, steps, more);
    if more == [] {
      assert steps + more == steps;
    } else {
      var k := |more| - 1;
      var before := steps + more[..k];
      assert (steps + more)[..|steps + more| - 1] == before;
      RejectionAndCancellationAreFinal(cfg, steps, more[..k]);
      FinalStep(cfg, After(cfg, before), more[k]);
    }
  }

  /** A rejected record is what the call returns in the end. */
  lemma RejectionIsReturned(cfg: Config, steps: seq<Step>, more: seq<Step>)
    requires cfg.n > 0 && Feasible(cfg, steps + more)
    ensures Feasible(cfg, steps)
    ensures After(cfg, steps).finalErr.Some? && After(cfg, steps + more).main.Returned? ==>
      After(cfg, steps + more).main.result == Rejected(After(cfg, steps).finalErr.value)
  {
    RejectionAndCancellationAreFinal(cfg, steps, more);
    InvReachable(cfg, steps + more);
  }

  lemma Extend(cfg: Config, steps: seq<Step>, step: Step)
    requires Feasible(cfg, steps) && Enabled(cfg, After(cfg, steps), step)
    ensures Feasible(cfg, steps + [step]) && After(cfg, steps + [step]) == Apply(cfg, After(cfg, steps), step)
  {
    assert (steps + [step])[..|steps + [step]| - 1] == steps;
  }
}

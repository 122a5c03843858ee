/** Runs over a dataset, whose series are aggregated from all of its bars. */
module DatasetRuns {
  import opened Wrappers
  import opened Market
  import opened Series
  import opened LookAhead
  import opened Engine
  import opened EngineTheorems

  // The script sees the M5 bars up to the current one and, of the series, the bars
  // that count as complete. With one bar per slot it cannot see more than those M5 bars.

  datatype View = View(m5: seq<TfBar>, m15: seq<TfBar>, h1: seq<TfBar>, h4: seq<TfBar>)

  type Script = (seq<Bar>, View, seq<BarState>) -> Decision

  function ViewAt(bars: seq<Bar>, t: nat): View
    requires t < |bars|
  {
    View(Completed(bars, M5, t), Completed(bars, M15, t), Completed(bars, H1, t), Completed(bars, H4, t))
  }

  const NOTHING_SHOWN := FatalFailure("no bar")

  /** The script over the dataset `all`: its series are built from all bars. */
  function DatasetDecider(script: Script, all: seq<Bar>): Decider {
    (visible: seq<Bar>, shown: seq<BarState>) =>
      if 0 < |visible| <= |all| then script(visible, ViewAt(all, |visible| - 1), shown) else NOTHING_SHOWN
  }

  /** The script with series built from the visible bars only. */
  function VisibleDecider(script: Script): Decider {
    (visible: seq<Bar>, shown: seq<BarState>) =>
      if 0 < |visible| then script(visible, ViewAt(visible, |visible| - 1), shown) else NOTHING_SHOWN
  }

  function OnDataset(script: Script, all: seq<Bar>, start: nat, stopOffset: int): Setup {
    Setup(all, start, DatasetDecider(script, all), stopOffset)
  }

  function OnVisible(script: Script, all: seq<Bar>, start: nat, stopOffset: int): Setup {
    Setup(all, start, VisibleDecider(script), stopOffset)
  }

  lemma SameView(all: seq<Bar>, t: nat)
    requires Ascending(all) && OnePerSlot(all) && t < |all|
    ensures ViewAt(all, t) == ViewAt(all[..t + 1], t)
  {
    hide Completed;
    NoLookAheadExactlyWhenOnePerSlot(all);
    assert forall tf: Tf :: NeedsNoLaterBar(all, tf, t);
    assert NeedsNoLaterBar(all, M5, t) && NeedsNoLaterBar(all, M15, t);
    assert NeedsNoLaterBar(all, H1, t) && NeedsNoLaterBar(all, H4, t);
  }

  lemma SameAnswer(script: Script, all: seq<Bar>, start: nat, stopOffset: int, t: nat, shown: seq<BarState>)
    requires Ascending(all) && OnePerSlot(all) && start + t < |all|
    ensures var p, q := OnDataset(script, all, start, stopOffset), OnVisible(script, all, start, stopOffset);
      p.decider(p.Visible(t), shown) == q.decider(q.Visible(t), shown)
  {
    hide ViewAt;
    SameView(all, start + t);
  }

  lemma SameStep(script: Script, all: seq<Bar>, start: nat, stopOffset: int, t: nat, s: RunState)
    requires Ascending(all) && OnePerSlot(all) && start + t < |all|
    ensures StepBar(OnDataset(script, all, start, stopOffset), s, t) == StepBar(OnVisible(script, all, start, stopOffset), s, t)
  {
    hide DatasetDecider, VisibleDecider, AfterSignal, AfterStop, StateShown;
    var bar := OnVisible(script, all, start, stopOffset).EvalBar(t);
    var a := if s.pending.Some? then AfterSignal(s.acc, s.pending.value, t, bar) else s.acc;
    SameAnswer(script, all, start, stopOffset, t, s.shown + [StateShown(start, t, AfterStop(a, stopOffset, t, bar))]);
  }

  /** Building the series from all bars or from the visible ones gives the same run. */
  lemma {:induction false} SameRun(script: Script, all: seq<Bar>, start: nat, stopOffset: int, t: nat)
    requires Ascending(all) && OnePerSlot(all) && start < |all|
    requires t <= |all| - start
    ensures StateAt(OnDataset(script, all, start, stopOffset), t) == StateAt(OnVisible(script, all, start, stopOffset), t)
  {
    hide DatasetDecider, VisibleDecider, StepBar;
    if t > 0 {
      SameRun(script, all, start, stopOffset, t - 1);
      SameStep(script, all, start, stopOffset, t - 1, StateAt(OnVisible(script, all, start, stopOffset), t - 1));
    }
  }

  lemma SameResult(script: Script, all: seq<Bar>, start: nat, stopOffset: int)
    requires Ascending(all) && OnePerSlot(all) && start < |all|
    ensures ResultOf(OnDataset(script, all, start, stopOffset)) == ResultOf(OnVisible(script, all, start, stopOffset))
  {
    hide StateAt, DatasetDecider, VisibleDecider, AtPeriodEnd;
    SameRun(script, all, start, stopOffset, |all| - start);
  }

  /**
   Two datasets, each with one bar per slot, that agree on the first `k` evaluation
   bars give the same positions on them, show the same states, and close the same
   trades before `k` other than by the end of the data, although each script reads
   series aggregated from its whole dataset.
   */
  lemma NoLookAheadOnDatasets(script: Script, all: seq<Bar>, other: seq<Bar>, start: nat, stopOffset: int, k: nat)
    requires Ascending(all) && OnePerSlot(all) && Ascending(other) && OnePerSlot(other)
    requires start < |all| && start < |other| && start + k <= |all| && start + k <= |other|
    requires all[..start + k] == other[..start + k]
    ensures var p, q := OnDataset(script, all, start, stopOffset), OnDataset(script, other, start, stopOffset);
      && StateAt(p, k).positions == StateAt(q, k).positions && StateAt(p, k).shown == StateAt(q, k).shown
      && (ResultOf(p).Finished? ==> StateAt(p, k).positions <= ResultOf(p).outcome.positions)
      && (ResultOf(q).Finished? ==> StateAt(q, k).positions <= ResultOf(q).outcome.positions)
      && (ResultOf(p).Finished? && ResultOf(q).Finished? ==>
            Settled(ResultOf(p).outcome.trades, k) == Settled(ResultOf(q).outcome.trades, k))
  {
    hide StateAt, ResultOf, DatasetDecider, VisibleDecider, Settled, Ascending, OnePerSlot;
    var p, q := OnVisible(script, all, start, stopOffset), OnVisible(script, other, start, stopOffset);
    SameRun(script, all, start, stopOffset, k);
    SameRun(script, other, start, stopOffset, k);
    SameResult(script, all, start, stopOffset);
    SameResult(script, other, start, stopOffset);
    NoLookAhead(p, q, k);
  }
}

/**
 * What a tick records besides vruntime and load_sum: the load averages, the number of
 * runnable tasks and the fairness snapshot, over whole runs and across idle ticks.
 */
module TickRecords {
  import opened Arithmetic
  import opened Constants
  import opened Charge
  import opened Jain
  import opened RunQueue
  import opened Fairness
  import opened LoadTrajectory
  import opened SteadyState

  /** The average of the load the tick itself has left behind. */
  lemma TickAverage(mode: Mode, s: State, i: nat)
    requires (mode == Exact || PickNext(s.tasks) != -1) && i < |s.tasks|
    ensures |Tick(mode, s).tasks| == |s.tasks|
    ensures var t := Tick(mode, s).tasks[i];
            t.weight == s.tasks[i].weight && t.loadAvg == Min(t.weight * t.loadSum / 47742, t.weight)
  {
    hide TickDecay;
    hide TickCharge;
  }

  /**
   * Over every run that does not end with an idle approximate tick, load_avg is the weight times the
   * current load_sum over LOAD_AVG_MAX, capped at the weight.
   */
  lemma LoadAverageOfRun(mode: Mode, s: State, history: seq<seq<bool>>, i: nat)
    requires History(history, |s.tasks|) && i < |s.tasks| && history != []
    requires mode == Exact || true in history[|history| - 1]
    ensures var t := RunWith(mode, s, history).tasks[i];
            t.loadAvg == Min(t.weight * t.loadSum / 47742, t.weight)
  {
    hide Tick;
    HistoryPrefix(history, |s.tasks|);
    var before := RunWith(mode, s, history[..|history| - 1]);
    WokenPick(before.tasks, history[|history| - 1]);
    TickAverage(mode, before.(tasks := SetRunnable(before.tasks, history[|history| - 1])), i);
  }

  lemma ColumnOfAlways(history: seq<seq<bool>>, i: nat)
    requires AlwaysRunnable(history, i)
    ensures Column(history, i) == Always(|history|)
  {}

  /** An always-runnable nice-0 task has a load_avg of exactly 1024 from tick LOAD_AVG_MAX on. */
  lemma NiceZeroAverage(s: State, history: seq<seq<bool>>, i: nat)
    requires History(history, |s.tasks|) && i < |s.tasks| && AlwaysRunnable(history, i)
    requires s.tasks[i].weight == NICE_0_LOAD && s.tasks[i].loadSum == 0 && |history| >= 47742
    ensures RunWith(Exact, s, history).tasks[i].loadAvg == 1024
  {
    hide RunWith;
    LoadOfRun(Exact, s, history, i);
    ColumnOfAlways(history, i);
    ExactSteadyState(|history|);
    LoadAverageOfRun(Exact, s, history, i);
    hide LoadAfter;
    assert Min(1024 * 47742 / 47742, 1024) == 1024;
  }

  /** In BSA mode it settles at 702: the BSA load is full at 32 times the weight. */
  lemma NiceZeroBsaAverage(s: State, history: seq<seq<bool>>, i: nat)
    requires History(history, |s.tasks|) && i < |s.tasks| && AlwaysRunnable(history, i)
    requires s.tasks[i].weight == NICE_0_LOAD && s.tasks[i].loadSum == 0 && |history| >= 32768
    ensures RunWith(Bsa, s, history).tasks[i].loadAvg == 702
  {
    hide RunWith;
    AlwaysIsBusy(history, i);
    LoadOfRun(Bsa, s, history, i);
    ColumnOfAlways(history, i);
    BsaSteadyState(1024, |history|);
    LoadAverageOfRun(Bsa, s, history, i);
    hide LoadAfter;
    assert Min(1024 * 32768 / 47742, 1024) == 702;
  }

  lemma AlwaysIsBusy(history: seq<seq<bool>>, i: nat)
    requires AlwaysRunnable(history, i)
    ensures Busy(history)
  {
    forall k | 0 <= k < |history|
      ensures true in history[k]
    {
      assert history[k][i];
    }
  }

  /** The first exact tick of a new nice-0 task already shows in its average. */
  lemma FirstAverage(s: State, history: seq<seq<bool>>, i: nat)
    requires History(history, |s.tasks|) && i < |s.tasks| && AlwaysRunnable(history, i) && |history| == 1
    requires s.tasks[i].weight == NICE_0_LOAD && s.tasks[i].loadSum == 0
    ensures RunWith(Exact, s, history).tasks[i].loadAvg == 21
  {
    hide RunWith;
    LoadOfRun(Exact, s, history, i);
    ColumnOfAlways(history, i);
    AlwaysStep(Exact, 1024, 0, 1);
    assert LoadAfter(Exact, 1024, 0, Always(0)) == 0;
    ExactTick(0);
    LoadAverageOfRun(Exact, s, history, i);
    hide LoadAfter;
    hide TickDecay;
    assert Min(1024 * 1024 / 47742, 1024) == 21;
  }

  /** The flags that are set. */
  function CountTrue(flags: seq<bool>): nat {
    if flags == [] then 0 else CountTrue(flags[..|flags| - 1]) + if flags[|flags| - 1] then 1 else 0
  }

  lemma {:induction false} CountOfFlags(tasks: seq<Task>, flags: seq<bool>)
    requires |tasks| == |flags| && forall k :: 0 <= k < |flags| ==> tasks[k].runnable == flags[k]
    ensures CountRunnable(tasks) == CountTrue(flags)
  {
    if tasks == [] {
    } else {
      CountOfFlags(tasks[..|tasks| - 1], flags[..|flags| - 1]);
    }
  }

  /**
   * A tick that does something leaves the number of runnable tasks in nr_running and the
   * index of the runtimes it leaves in jain_index.
   */
  lemma SnapshotOfRun(mode: Mode, s: State, history: seq<seq<bool>>)
    requires History(history, |s.tasks|) && history != []
    requires mode == Exact || true in history[|history| - 1]
    ensures var r := RunWith(mode, s, history);
            && r.nrRunning == CountTrue(history[|history| - 1])
            && r.jain == JainIndex(Runtimes(r.tasks))
            && forall k :: 0 <= k < |r.tasks| ==> r.tasks[k].runnable == history[|history| - 1][k]
  {
    HistoryPrefix(history, |s.tasks|);
    var before, flags := RunWith(mode, s, history[..|history| - 1]), history[|history| - 1];
    var woken := before.(tasks := SetRunnable(before.tasks, flags));
    WokenPick(before.tasks, flags);
    var r := Tick(mode, woken);
    TickSnapshot(mode, woken);
    forall k: nat | k < |r.tasks|
      ensures r.tasks[k].runnable == flags[k]
    {
      TickEffect(mode, woken, k);
    }
    hide Tick;
    CountOfFlags(r.tasks, flags);
  }

  lemma TickSnapshot(mode: Mode, s: State)
    requires mode == Exact || PickNext(s.tasks) != -1
    ensures var r := Tick(mode, s);
            |r.tasks| == |s.tasks| && r.nrRunning == CountRunnable(r.tasks) && r.jain == JainIndex(Runtimes(r.tasks))
  {
    hide TickDecay;
    hide TickCharge;
    hide JainIndex;
    hide CountRunnable;
    hide ControllerState;
  }

  /** Nothing is runnable at any tick. */
  ghost predicate Idle(history: seq<seq<bool>>) {
    forall k :: 0 <= k < |history| ==> true !in history[k]
  }

  /** The same task, but for the flag. */
  predicate SameRecord(t: Task, u: Task) {
    u == t.(runnable := u.runnable)
  }

  /**
   * Idle ticks of the approximate modes pass without a trace but on the clock: no load decays, and
   * the snapshot and the controller stay as they were.
   */
  lemma {:induction false} IdleTicksLeaveNoTrace(mode: Mode, s: State, history: seq<seq<bool>>)
    requires mode != Exact && History(history, |s.tasks|) && Idle(history)
    ensures var r := RunWith(mode, s, history);
            && r == s.(tasks := r.tasks, tick := s.tick + |history|, clock := s.clock + 1000000 * |history|)
            && |r.tasks| == |s.tasks| && forall k :: 0 <= k < |s.tasks| ==> SameRecord(s.tasks[k], r.tasks[k])
    decreases |history|
  {
    if history == [] {
    } else {
      HistoryPrefix(history, |s.tasks|);
      var prefix, flags := history[..|history| - 1], history[|history| - 1];
      IdleTicksLeaveNoTrace(mode, s, prefix);
      var before := RunWith(mode, s, prefix);
      WokenPick(before.tasks, flags);
      hide PickNext;
    }
  }

  /** Only the APAF tick moves the controller. */
  lemma {:induction false} OnlyApafControls(mode: Mode, s: State, history: seq<seq<bool>>)
    requires mode != Apaf && History(history, |s.tasks|)
    ensures RunWith(mode, s, history).apafState == s.apafState
    decreases |history|
  {
    if history == [] {
    } else {
      HistoryPrefix(history, |s.tasks|);
      OnlyApafControls(mode, s, history[..|history| - 1]);
      hide TickDecay;
      hide TickCharge;
      hide PickNext;
    }
  }

  /** Every nice level weighs a quarter more than the next, within 5%: each step is about 10% of CPU time. */
  lemma NiceStepsAreGeometric(nice: int)
    requires -20 <= nice < 19
    ensures var w, next := TaskCreate(0, nice).weight, TaskCreate(0, nice + 1).weight;
            120 * next <= 100 * w <= 128 * next
  {}

  /** Until something runs, a new runqueue reports perfect fairness and the middle budget. */
  lemma NewRunqueue(mode: Mode, tasks: seq<Task>, history: seq<seq<bool>>)
    requires mode != Exact && History(history, |tasks|) && Idle(history)
    ensures var r := RunWith(mode, RqInit(tasks), history);
            r.jain == Ratio(1.0) && r.apafState == Medium && r.tick == |history| && r.clock == 1000000 * |history|
  {
    IdleTicksLeaveNoTrace(mode, RqInit(tasks), history);
    hide RunWith;
  }

  /** A task without weight is never charged, in any mode and for any time. */
  lemma NoWeightNoCharge(mode: Mode, state: ApafState, delta: nat)
    ensures TickCharge(mode, state, 0) == 0
    ensures ExactCharge(delta, 0) == 0 && BsaCharge(delta, 0) == 0 && CltiCharge(delta, 0) == 0
  {}
}

/**
 * Tasks and the runqueue (task.c) and the tick of each scheduling mode (cfs_exact.c,
 * approx_bsa.c, approx_clti.c, approx_apaf.c): as a step function on states and as
 * the class whose methods update the task array and the runqueue in place.
 */
module RunQueue {
  import opened Arithmetic
  import opened Constants
  import opened Decay
  import opened Charge
  import opened ApproxDecay
  import opened Jain

  datatype Task = Task(
    id: int, nice: int, weight: nat, vruntime: nat,
    loadAvg: nat, loadSum: nat, execRuntime: nat, runnable: bool)

  datatype Mode = Exact | Bsa | Clti | Apaf

  datatype State = State(
    tasks: seq<Task>, nrRunning: nat, clock: nat, tick: nat,
    apafState: ApafState, jain: Index)

  /** task_create. */
  function TaskCreate(id: int, nice: int): (t: Task)
    ensures -20 <= t.nice <= 19 && t.runnable
    ensures t.weight == NICE_TO_WEIGHT[t.nice + 20] && (-20 <= nice <= 19 ==> t.nice == nice)
    ensures t.vruntime == t.loadAvg == t.loadSum == t.execRuntime == 0
    ensures nice == 0 ==> t.weight == 1024
  {
    var clamped := if nice < -20 then -20 else if nice > 19 then 19 else nice;
    Task(id, clamped, NICE_TO_WEIGHT[clamped + 20], 0, 0, 0, 0, true)
  }

  /** The number of runnable tasks. */
  function CountRunnable(tasks: seq<Task>): (n: nat)
    ensures n <= |tasks|
  {
    if tasks == [] then 0
    else CountRunnable(tasks[..|tasks| - 1]) + if tasks[|tasks| - 1].runnable then 1 else 0
  }

  /** The exec_runtime of the runnable tasks, in task order. */
  function Runtimes(tasks: seq<Task>): (xs: seq<nat>)
    ensures |xs| == CountRunnable(tasks)
  {
    if tasks == [] then []
    else
      var last := tasks[|tasks| - 1];
      Runtimes(tasks[..|tasks| - 1]) + if last.runnable then [last.execRuntime] else []
  }

  /** rq_init. */
  function RqInit(tasks: seq<Task>): State {
    State(tasks, CountRunnable(tasks), 0, 0, Medium, Ratio(1.0))
  }

  /** The first of the first n tasks that is runnable with the least vruntime, or -1. */
  function PickAmong(tasks: seq<Task>, n: nat): (r: int)
    requires n <= |tasks|
    ensures -1 <= r < n
    ensures r == -1 <==> forall i :: 0 <= i < n ==> !tasks[i].runnable
    ensures r >= 0 ==> tasks[r].runnable
    ensures r >= 0 ==> forall i :: 0 <= i < n && tasks[i].runnable ==> tasks[r].vruntime <= tasks[i].vruntime
    ensures r >= 0 ==> forall i :: 0 <= i < r && tasks[i].runnable ==> tasks[r].vruntime < tasks[i].vruntime
  {
    if n == 0 then -1
    else
      var best := PickAmong(tasks, n - 1);
      if tasks[n - 1].runnable && (best == -1 || tasks[n - 1].vruntime < tasks[best].vruntime)
      then n - 1 else best
  }

  /** exact_pick_next_task. */
  function PickNext(tasks: seq<Task>): int {
    PickAmong(tasks, |tasks|)
  }

  /** The vruntime one tick costs a task of this weight, which the caller casts to u32. */
  function TickCharge(mode: Mode, state: ApafState, weight: nat): nat {
    match mode
    case Exact => ExactCharge(TICK_NS, weight % TWO32)
    case Bsa => BsaCharge(TICK_NS, weight % TWO32)
    case Clti => CltiCharge(TICK_NS, weight % TWO32)
    case Apaf => ApafCharge(TICK_NS, weight % TWO32, state)
  }

  /** exact_update_curr and its three approximations. */
  function Charged(mode: Mode, state: ApafState, t: Task): Task {
    if !t.runnable then t
    else t.(execRuntime := t.execRuntime + TICK_NS,
            vruntime := t.vruntime + TickCharge(mode, state, t.weight))
  }

  /** One period of decay. */
  function TickDecay(mode: Mode, state: ApafState, load: nat): nat {
    match mode
    case Exact => ExactDecay(load, 1)
    case Bsa => BsaDecay(load, 1)
    case Clti => CltiDecay(load, 1)
    case Apaf => ApafDecay(load, 1, state)
  }

  /** The new load_sum of exact_update_load_avg and its three approximations. */
  function TickLoadSum(mode: Mode, state: ApafState, t: Task): nat {
    TickDecay(mode, state, t.loadSum) + if t.runnable then t.weight else 0
  }

  /** load_avg before the clamp to the weight. */
  function RawLoadAvg(weight: nat, loadSum: nat): nat {
    weight * loadSum / LOAD_AVG_MAX
  }

  function Loaded(mode: Mode, state: ApafState, t: Task): Task {
    var sum := TickLoadSum(mode, state, t);
    t.(loadSum := sum, loadAvg := Min(RawLoadAvg(t.weight, sum), t.weight))
  }

  /** apaf_update_state: the controller looks at every fourth tick. */
  function ControllerState(tick: nat, state: ApafState, tasks: seq<Task>): ApafState {
    if tick % 4 != 0 then state else NextState(state, JainIndex(Runtimes(tasks)))
  }

  /** The tasks once the picked one has been charged. */
  function ChargeTask(mode: Mode, state: ApafState, tasks: seq<Task>, next: int): seq<Task>
    requires -1 <= next < |tasks|
  {
    if next == -1 then tasks else tasks[next := Charged(mode, state, tasks[next])]
  }

  function LoadAll(mode: Mode, state: ApafState, tasks: seq<Task>): (r: seq<Task>)
    ensures |r| == |tasks|
  {
    seq(|tasks|, i requires 0 <= i < |tasks| => Loaded(mode, state, tasks[i]))
  }

  /**
   * One tick. The approximate ticks only advance the clock when nothing is runnable;
   * the exact tick still decays every load.
   */
  function Tick(mode: Mode, s: State): State {
    var clocked := s.(tick := s.tick + 1, clock := s.clock + TICK_NS);
    var next := PickNext(s.tasks);
    if next == -1 && mode != Exact then clocked
    else
      var tasks := LoadAll(mode, s.apafState, ChargeTask(mode, s.apafState, s.tasks, next));
      clocked.(tasks := tasks,
               apafState := if mode == Apaf then ControllerState(clocked.tick, s.apafState, tasks) else s.apafState,
               jain := JainIndex(Runtimes(tasks)),
               nrRunning := CountRunnable(tasks))
  }

  /** cfs_rq_t: the runqueue of the simulator, over a caller's array of tasks. */
  class CfsRq {
    const tasks: array<Task>
    var nrRunning: nat
    var clock: nat
    var tick: nat
    var apafState: ApafState
    var jain: Index

    ghost function View(): State
      reads this, tasks
    {
      State(tasks[..], nrRunning, clock, tick, apafState, jain)
    }

    constructor (tasks0: array<Task>)
      ensures tasks == tasks0 && View() == RqInit(tasks0[..])
    {
      tasks := tasks0;
      clock := 0;
      tick := 0;
      apafState := Medium;
      jain := Ratio(1.0);
      nrRunning := 0;
      new;
      var running := 0;
      for i := 0 to tasks0.Length
        invariant running == CountRunnable(tasks0[..i])
        invariant tasks == tasks0 && clock == 0 && tick == 0 && apafState == Medium && jain == Ratio(1.0)
      {
        assert tasks0[..i + 1][..i] == tasks0[..i];
        if tasks0[i].runnable {
          running := running + 1;
        }
      }
      assert tasks0[..tasks0.Length] == tasks0[..];
      nrRunning := running;
    }

    /** rq_tick. */
    method AdvanceClock()
      modifies this`tick, this`clock
      ensures tick == old(tick) + 1 && clock == old(clock) + TICK_NS
    {
      tick := tick + 1;
      clock := clock + TICK_NS;
    }

    method PickNextTask() returns (minIdx: int)
      ensures minIdx == PickNext(tasks[..])
    {
      minIdx := -1;
      var minVruntime := 0;
      for i := 0 to tasks.Length
        invariant minIdx == PickAmong(tasks[..], i)
        invariant minIdx != -1 ==> minVruntime == tasks[minIdx].vruntime
      {
        if tasks[i].runnable {
          if minIdx == -1 || tasks[i].vruntime < minVruntime {
            minIdx := i;
            minVruntime := tasks[i].vruntime;
          }
        }
      }
    }

    method CountRunning()
      modifies this`nrRunning
      ensures nrRunning == CountRunnable(tasks[..])
    {
      var count := 0;
      for i := 0 to tasks.Length
        invariant count == CountRunnable(tasks[..i])
      {
        assert tasks[..i + 1][..i] == tasks[..i];
        if tasks[i].runnable {
          count := count + 1;
        }
      }
      assert tasks[..tasks.Length] == tasks[..];
      nrRunning := count;
    }

    method FairnessJainIndex() returns (jain: Index)
      ensures jain == JainIndex(Runtimes(tasks[..]))
    {
      var sum, sumSq, n := 0, 0, 0;
      ghost var xs: seq<nat> := [];
      for i := 0 to tasks.Length
        invariant xs == Runtimes(tasks[..i])
        invariant n == |xs| && sum == Sum(xs) % TWO64 && sumSq == SumSquares(xs) % TWO64
      {
        assert tasks[..i + 1][..i] == tasks[..i];
        if tasks[i].runnable {
          var x := tasks[i].execRuntime;
          AddSample(xs, x);
          sum := (sum + x) % TWO64;
          sumSq := (sumSq + x * x) % TWO64;
          n := n + 1;
          xs := xs + [x];
        }
      }
      assert tasks[..tasks.Length] == tasks[..];
      if n < 2 {
        return Ratio(1.0);
      }
      if sum == 0 || sumSq == 0 {
        return Ratio(1.0);
      }
      return ClampedRatio(sum * sum % TWO64, n * sumSq % TWO64);
    }

    /** apaf_update_state. */
    method ApafUpdateState()
      modifies this`apafState, this`jain
      ensures apafState == ControllerState(tick, old(apafState), tasks[..])
      ensures jain == if tick % 4 == 0 then JainIndex(Runtimes(tasks[..])) else old(jain)
    {
      if tick % 4 != 0 {
        return;
      }
      var j := FairnessJainIndex();
      jain := j;
      var next := NextState(apafState, j);
      if next != apafState {
        apafState := next;
      }
    }

    /** The charge of one tick, by the loop of the mode. */
    method ChargeFor(mode: Mode, weight: nat) returns (d: nat)
      ensures d == TickCharge(mode, apafState, weight)
    {
      var w := weight % TWO32;
      match mode
      case Exact => d := ExactCharge(TICK_NS, w);
      case Bsa => d := BsaVruntimeDelta(TICK_NS, w);
      case Clti => d := CltiVruntimeDelta(TICK_NS, w);
      case Apaf => d := ApafVruntimeDelta(TICK_NS, w, apafState);
    }

    /** exact_update_curr, bsa_update_curr, clti_update_curr, apaf_update_curr. */
    method UpdateCurr(mode: Mode, taskIdx: int)
      modifies tasks
      ensures 0 <= taskIdx < tasks.Length ==>
                tasks[..] == old(tasks[..])[taskIdx := Charged(mode, apafState, old(tasks[taskIdx]))]
      ensures !(0 <= taskIdx < tasks.Length) ==> tasks[..] == old(tasks[..])
    {
      if taskIdx < 0 || taskIdx >= tasks.Length {
        return;
      }
      hide TickCharge;
      var curr := tasks[taskIdx];
      if !curr.runnable {
        return;
      }
      var delta := ChargeFor(mode, curr.weight);
      var charged := curr.(execRuntime := curr.execRuntime + TICK_NS, vruntime := curr.vruntime + delta);
      assert charged == Charged(mode, apafState, curr);
      hide Charged;
      tasks[taskIdx] := charged;
    }

    /** One period of decay, by the code of the mode. */
    method DecayFor(mode: Mode, load: nat) returns (d: nat)
      ensures d == TickDecay(mode, apafState, load)
    {
      match mode
      case Exact => d := ExactDecay(load, 1);
      case Bsa => d := BsaDecayLoad(load, 1);
      case Clti => d := CltiDecay(load, 1);
      case Apaf => d := ApafDecay(load, 1, apafState);
    }

    /** exact_update_load_avg, bsa_update_load_avg, clti_update_load_avg, apaf_update_load_avg. */
    method UpdateLoadAvg(mode: Mode, taskIdx: int)
      modifies tasks
      ensures 0 <= taskIdx < tasks.Length ==>
                tasks[..] == old(tasks[..])[taskIdx := Loaded(mode, apafState, old(tasks[taskIdx]))]
      ensures !(0 <= taskIdx < tasks.Length) ==> tasks[..] == old(tasks[..])
    {
      if taskIdx < 0 || taskIdx >= tasks.Length {
        return;
      }
      hide TickDecay;
      var t := tasks[taskIdx];
      var sum := DecayFor(mode, t.loadSum);
      if t.runnable {
        sum := sum + t.weight;
      }
      var avg := RawLoadAvg(t.weight, sum);
      if avg > t.weight {
        avg := t.weight;
      }
      var loaded := t.(loadSum := sum, loadAvg := avg);
      assert loaded == Loaded(mode, apafState, t);
      hide Loaded;
      tasks[taskIdx] := loaded;
    }

    /** The loop over all tasks in the middle of every tick. */
    method UpdateAllLoads(mode: Mode)
      modifies tasks
      ensures tasks[..] == LoadAll(mode, apafState, old(tasks[..]))
    {
      hide Loaded;
      ghost var before := tasks[..];
      for i := 0 to tasks.Length
        invariant forall k :: 0 <= k < i ==> tasks[k] == Loaded(mode, apafState, before[k])
        invariant forall k :: i <= k < tasks.Length ==> tasks[k] == before[k]
      {
        UpdateLoadAvg(mode, i);
      }
    }

    method ExactTick()
      modifies this, tasks
      ensures View() == Tick(Exact, old(View()))
    {
      hide Charged;
      hide LoadAll;
      hide JainIndex;
      hide Runtimes;
      hide CountRunnable;
      hide ControllerState;
      hide PickAmong;
      AdvanceClock();
      var next := PickNextTask();
      if next != -1 {
        UpdateCurr(Exact, next);
      }
      UpdateAllLoads(Exact);
      jain := FairnessJainIndex();
      CountRunning();
    }

    /** bsa_tick and clti_tick, which differ only in the functions they call. */
    method ApproximateTick(mode: Mode)
      requires mode == Bsa || mode == Clti
      modifies this, tasks
      ensures View() == Tick(mode, old(View()))
    {
      hide Charged;
      hide LoadAll;
      hide JainIndex;
      hide Runtimes;
      hide CountRunnable;
      hide ControllerState;
      hide PickAmong;
      AdvanceClock();
      var next := PickNextTask();
      if next == -1 {
        return;
      }
      UpdateCurr(mode, next);
      UpdateAllLoads(mode);
      jain := FairnessJainIndex();
      CountRunning();
    }

    method ApafTick()
      modifies this, tasks
      ensures View() == Tick(Apaf, old(View()))
    {
      hide Charged;
      hide LoadAll;
      hide JainIndex;
      hide Runtimes;
      hide CountRunnable;
      hide ControllerState;
      hide PickAmong;
      AdvanceClock();
      var next := PickNextTask();
      if next == -1 {
        return;
      }
      UpdateCurr(Apaf, next);
      UpdateAllLoads(Apaf);
      ApafUpdateState();
      jain := FairnessJainIndex();
      CountRunning();
    }
  }

  /** One more sample in the u64 accumulators of the fairness index. */
  lemma AddSample(xs: seq<nat>, x: nat)
    ensures (Sum(xs) % TWO64 + x) % TWO64 == Sum(xs + [x]) % TWO64
    ensures (SumSquares(xs) % TWO64 + x * x) % TWO64 == SumSquares(xs + [x]) % TWO64
  {
    assert (xs + [x])[..|xs|] == xs;
    ModAdd(Sum(xs), x, TWO64);
    ModAdd(SumSquares(xs), x * x, TWO64);
  }
}

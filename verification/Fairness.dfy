/**
 * Fairness of the scheduler over whole runs, in every mode: tasks may block and wake
 * before any tick, and two tasks that stay runnable never drift apart by more than
 * one charge.
 */
module Fairness {
  import opened Arithmetic
  import opened Constants
  import opened Decay
  import opened NewtonReciprocal
  import opened Charge
  import opened RunQueue

  /** task_set_runnable on every task. */
  function SetRunnable(tasks: seq<Task>, flags: seq<bool>): (r: seq<Task>)
    requires |flags| == |tasks|
    ensures |r| == |tasks|
  {
    seq(|tasks|, i requires 0 <= i < |tasks| => tasks[i].(runnable := flags[i]))
  }

  /** The runnable flags of n tasks before each tick, oldest first. */
  ghost predicate History(history: seq<seq<bool>>, n: nat) {
    forall k :: 0 <= k < |history| ==> |history[k]| == n
  }

  /** The state after ticks preceded by the given blocking and waking. */
  ghost function RunWith(mode: Mode, s: State, history: seq<seq<bool>>): (r: State)
    requires History(history, |s.tasks|)
    ensures |r.tasks| == |s.tasks|
    decreases |history|
  {
    if history == [] then s
    else
      var before := RunWith(mode, s, history[..|history| - 1]);
      Tick(mode, before.(tasks := SetRunnable(before.tasks, history[|history| - 1])))
  }

  /** The largest charge the mode can make in one tick; only APAF varies it. */
  function MaxCharge(mode: Mode, weight: nat): nat {
    TickCharge(mode, Medium, weight)
  }

  lemma ChargeAtMostMax(mode: Mode, state: ApafState, weight: nat)
    ensures TickCharge(mode, state, weight) <= MaxCharge(mode, weight)
    ensures mode != Apaf ==> TickCharge(mode, state, weight) == MaxCharge(mode, weight)
  {
    if mode == Apaf && state == Loose {
      ApproximationsNeverOvercharge(TICK_NS, weight % TWO32, Medium);
    }
  }

  /** What one tick does to each task, apart from its load. */
  lemma TickEffect(mode: Mode, s: State, i: nat)
    requires i < |s.tasks|
    ensures |Tick(mode, s).tasks| == |s.tasks|
    ensures var t, t', next := s.tasks[i], Tick(mode, s).tasks[i], PickNext(s.tasks);
            && t'.weight == t.weight && t'.runnable == t.runnable
            && t'.execRuntime == t.execRuntime + (if i == next then TICK_NS else 0)
            && t'.vruntime == t.vruntime + (if i == next then TickCharge(mode, s.apafState, t.weight) else 0)
  {
    hide TickCharge;
    hide TickDecay;
  }

  /** vruntime of task i against task j: at most one charge of i ahead. */
  ghost predicate NotAhead(mode: Mode, s: State, i: nat, j: nat)
    requires i < |s.tasks| && j < |s.tasks|
  {
    s.tasks[i].vruntime <= s.tasks[j].vruntime + MaxCharge(mode, s.tasks[i].weight)
  }

  lemma TickKeepsPair(mode: Mode, s: State, i: nat, j: nat)
    requires i < |s.tasks| && j < |s.tasks| && s.tasks[i].runnable && s.tasks[j].runnable
    requires NotAhead(mode, s, i, j)
    ensures |Tick(mode, s).tasks| == |s.tasks| && NotAhead(mode, Tick(mode, s), i, j)
  {
    TickEffect(mode, s, i);
    TickEffect(mode, s, j);
    ChargeAtMostMax(mode, s.apafState, s.tasks[i].weight);
    hide Tick;
    hide TickCharge;
  }

  /** Both tasks are runnable at every tick. */
  ghost predicate AlwaysRunnable(history: seq<seq<bool>>, i: nat) {
    forall k :: 0 <= k < |history| ==> i < |history[k]| && history[k][i]
  }

  lemma HistoryPrefix(history: seq<seq<bool>>, n: nat)
    requires History(history, n) && history != []
    ensures History(history[..|history| - 1], n) && |history[|history| - 1]| == n
    ensures forall i: nat :: AlwaysRunnable(history, i) ==>
              AlwaysRunnable(history[..|history| - 1], i) && i < n && history[|history| - 1][i]
  {}

  /**
   * CFS fairness in every mode, whatever the other tasks do: while both stay
   * runnable, task i is never more than one charge of its own ahead of task j.
   */
  lemma {:induction false} PairFairness(mode: Mode, s: State, history: seq<seq<bool>>, i: nat, j: nat)
    requires History(history, |s.tasks|) && i < |s.tasks| && j < |s.tasks|
    requires AlwaysRunnable(history, i) && AlwaysRunnable(history, j)
    requires NotAhead(mode, s, i, j)
    ensures NotAhead(mode, RunWith(mode, s, history), i, j)
    decreases |history|
  {
    hide Tick;
    hide MaxCharge;
    if history == [] {
    } else {
      HistoryPrefix(history, |s.tasks|);
      var prefix := history[..|history| - 1];
      PairFairness(mode, s, prefix, i, j);
      var before := RunWith(mode, s, prefix);
      var woken := before.(tasks := SetRunnable(before.tasks, history[|history| - 1]));
      assert NotAhead(mode, woken, i, j);
      TickKeepsPair(mode, woken, i, j);
    }
  }

  /** vruntime is the charge times the ticks run: c * exec / TICK_NS. */
  ghost predicate Proportional(mode: Mode, t: Task) {
    t.execRuntime * MaxCharge(mode, t.weight) == t.vruntime * TICK_NS
  }

  lemma ProportionalStep(e: nat, v: nat, c: nat)
    requires e * c == v * TICK_NS
    ensures (e + TICK_NS) * c == (v + c) * TICK_NS
  {}

  lemma {:induction false} RunKeepsProportional(mode: Mode, s: State, history: seq<seq<bool>>, i: nat)
    requires mode != Apaf && History(history, |s.tasks|) && i < |s.tasks|
    requires Proportional(mode, s.tasks[i])
    ensures Proportional(mode, RunWith(mode, s, history).tasks[i])
    ensures RunWith(mode, s, history).tasks[i].weight == s.tasks[i].weight
    decreases |history|
  {
    hide Tick;
    hide TickCharge;
    hide MaxCharge;
    if history == [] {
    } else {
      HistoryPrefix(history, |s.tasks|);
      var prefix := history[..|history| - 1];
      RunKeepsProportional(mode, s, prefix, i);
      var before := RunWith(mode, s, prefix);
      var woken := before.(tasks := SetRunnable(before.tasks, history[|history| - 1]));
      var t := woken.tasks[i];
      TickEffect(mode, woken, i);
      ChargeAtMostMax(mode, woken.apafState, t.weight);
      ProportionalStep(t.execRuntime, t.vruntime, MaxCharge(mode, t.weight));
    }
  }

  /**
   * Two always-runnable tasks of a fixed-charge mode that start level receive CPU time
   * in inverse proportion to their charges, at every tick and to within one tick:
   * |exec_i * c_i - exec_j * c_j| <= TICK_NS * max(c_i, c_j).
   */
  lemma ProportionalShare(mode: Mode, s: State, history: seq<seq<bool>>, i: nat, j: nat)
    requires mode != Apaf && History(history, |s.tasks|) && i < |s.tasks| && j < |s.tasks|
    requires AlwaysRunnable(history, i) && AlwaysRunnable(history, j)
    requires s.tasks[i].vruntime == s.tasks[j].vruntime
    requires Proportional(mode, s.tasks[i]) && Proportional(mode, s.tasks[j])
    ensures var ti, tj := RunWith(mode, s, history).tasks[i], RunWith(mode, s, history).tasks[j];
            var ci, cj := MaxCharge(mode, s.tasks[i].weight), MaxCharge(mode, s.tasks[j].weight);
            Abs(ti.execRuntime * ci - tj.execRuntime * cj) <= TICK_NS * Max(ci, cj)
  {
    hide MaxCharge;
    hide RunWith;
    hide AlwaysRunnable;
    hide History;
    PairFairness(mode, s, history, i, j);
    PairFairness(mode, s, history, j, i);
    RunKeepsProportional(mode, s, history, i);
    RunKeepsProportional(mode, s, history, j);
    var ti, tj := RunWith(mode, s, history).tasks[i], RunWith(mode, s, history).tasks[j];
    ShareBound(ti.execRuntime, ti.vruntime, MaxCharge(mode, s.tasks[i].weight),
               tj.execRuntime, tj.vruntime, MaxCharge(mode, s.tasks[j].weight));
  }

  lemma ShareBound(ei: nat, vi: nat, ci: nat, ej: nat, vj: nat, cj: nat)
    requires ei * ci == vi * TICK_NS && ej * cj == vj * TICK_NS
    requires vi <= vj + ci && vj <= vi + cj
    ensures Abs(ei * ci - ej * cj) <= TICK_NS * Max(ci, cj)
  {}

  /** No charge of one tick reaches 2^30 ns. */
  lemma MaxChargeFits(mode: Mode, weight: nat)
    ensures MaxCharge(mode, weight) < 0x4000_0000
  {
    var w := weight % TWO32;
    hide ExactCharge;
    hide ReciprocalCharge;
    hide CltiCharge;
    if mode == Clti {
      CltiChargeFits(w);
    } else {
      ExactChargeFits(w);
      ApproximationsNeverOvercharge(TICK_NS, w, Medium);
    }
  }

  lemma ExactChargeFits(w: nat)
    requires w < TWO32
    ensures ExactCharge(TICK_NS, w) < 0x4000_0000
  {
    if w > 1 && w != NICE_0_LOAD {
      ExactQuotient(TICK_NS, w);
      QuotientFits(w, TWO32 / w);
    }
  }

  lemma QuotientFits(w: nat, inv: nat)
    requires w > 1 && inv == TWO32 / w
    ensures TICK_NS * inv / 4194304 < 0x4000_0000
  {
    DivBounds(TWO32, w);
    MulMono(2, w, inv);
  }

  lemma CltiChargeFits(w: nat)
    ensures CltiCharge(TICK_NS, w) < 0x4000_0000
  {
    hide Newton;
    hide MulShr;
    var rep := CLTI_WEIGHT_CLASS[BestClass(w, 8)];
    ClassBelowTwo32(BestClass(w, 8));
    IterateBelowExact(rep, 1);
    QuotientFits(rep, TWO32 / rep);
    MulShr22Mono(TICK_NS, Newton(rep, 1), TWO32 / rep);
  }

  /** Within 2^34 ticks (198 days) no vruntime and no exec_runtime reaches 2^64. */
  lemma {:induction false} CountersFit(mode: Mode, s: State, history: seq<seq<bool>>, i: nat)
    requires History(history, |s.tasks|) && i < |s.tasks| && |history| < 0x4_0000_0000
    requires s.tasks[i].vruntime == 0 && s.tasks[i].execRuntime == 0
    ensures var t := RunWith(mode, s, history).tasks[i];
            t.vruntime <= 0x4000_0000 * |history| < TWO64 && t.execRuntime <= TICK_NS * |history| < TWO64
    decreases |history|
  {
    hide Tick;
    hide TickCharge;
    if history == [] {
    } else {
      HistoryPrefix(history, |s.tasks|);
      var prefix := history[..|history| - 1];
      CountersFit(mode, s, prefix, i);
      var before := RunWith(mode, s, prefix);
      var woken := before.(tasks := SetRunnable(before.tasks, history[|history| - 1]));
      TickEffect(mode, woken, i);
      ChargeAtMostMax(mode, woken.apafState, woken.tasks[i].weight);
      MaxChargeFits(mode, woken.tasks[i].weight);
    }
  }

  /** Something is picked exactly when some flag is set. */
  lemma WokenPick(tasks: seq<Task>, flags: seq<bool>)
    requires |flags| == |tasks|
    ensures PickNext(SetRunnable(tasks, flags)) != -1 <==> true in flags
  {
    var woken := SetRunnable(tasks, flags);
    assert forall i :: 0 <= i < |flags| ==> woken[i].runnable == flags[i];
  }

  /** CPU time of all tasks, runnable or not. */
  function TotalExec(tasks: seq<Task>): nat {
    if tasks == [] then 0 else TotalExec(tasks[..|tasks| - 1]) + tasks[|tasks| - 1].execRuntime
  }

  /** Ticks at which some task was runnable. */
  ghost function BusyTicks(history: seq<seq<bool>>): nat {
    if history == [] then 0
    else BusyTicks(history[..|history| - 1]) + if true in history[|history| - 1] then 1 else 0
  }

  /** Changing one exec_runtime changes the total by the same amount. */
  lemma {:induction false} TotalExecChange(a: seq<Task>, b: seq<Task>, next: int, d: nat)
    requires |a| == |b| && next < |a|
    requires forall i :: 0 <= i < |a| ==> b[i].execRuntime == a[i].execRuntime + if i == next then d else 0
    ensures TotalExec(b) == TotalExec(a) + if 0 <= next then d else 0
  {
    if a == [] {
    } else {
      var n := |a| - 1;
      if next == n {
        TotalExecChange(a[..n], b[..n], -1, d);
      } else {
        TotalExecChange(a[..n], b[..n], next, d);
      }
    }
  }

  /**
   * Conservation: over any run the CPU time handed out is TICK_NS for every tick at
   * which some task was runnable, and the clock counts every tick.
   */
  lemma {:induction false} CpuTimeConserved(mode: Mode, s: State, history: seq<seq<bool>>)
    requires History(history, |s.tasks|)
    ensures TotalExec(RunWith(mode, s, history).tasks) == TotalExec(s.tasks) + TICK_NS * BusyTicks(history)
    ensures RunWith(mode, s, history).tick == s.tick + |history|
    ensures RunWith(mode, s, history).clock == s.clock + TICK_NS * |history|
    decreases |history|
  {
    if history == [] {
    } else {
      HistoryPrefix(history, |s.tasks|);
      var prefix, flags := history[..|history| - 1], history[|history| - 1];
      CpuTimeConserved(mode, s, prefix);
      var before := RunWith(mode, s, prefix);
      var woken := before.(tasks := SetRunnable(before.tasks, flags));
      TickConserves(mode, woken);
      TotalExecChange(before.tasks, woken.tasks, -1, 0);
      WokenPick(before.tasks, flags);
    }
  }

  lemma TickConserves(mode: Mode, s: State)
    ensures TotalExec(Tick(mode, s).tasks) == TotalExec(s.tasks) + if PickNext(s.tasks) == -1 then 0 else TICK_NS
    ensures Tick(mode, s).tick == s.tick + 1 && Tick(mode, s).clock == s.clock + TICK_NS
  {
    var s' := Tick(mode, s);
    forall i: nat | i < |s.tasks|
      ensures |s'.tasks| == |s.tasks|
      ensures s'.tasks[i].execRuntime == s.tasks[i].execRuntime + if i == PickNext(s.tasks) then TICK_NS else 0
    {
      TickEffect(mode, s, i);
    }
    assert |s'.tasks| == |s.tasks|;
    TotalExecChange(s.tasks, s'.tasks, PickNext(s.tasks), TICK_NS);
  }
}

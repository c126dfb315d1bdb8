/**
 * CFS bandwidth control (fair.c): one task group's runtime pool and its local
 * runqueues, one per CPU. Each section of the source that runs under a runqueue
 * lock is one step; the steps of different CPUs interleave in any order.
 */
module Bandwidth {
  import opened Arithmetic
  import opened Lists

  const RUNTIME_INF: nat := 0xffff_ffff_ffff_ffff
  /** min_cfs_rq_runtime: a local queue keeps this much when it returns its slack. */
  const MIN_CFS_RQ_RUNTIME: nat := 1_000_000

  /** The bandwidth fields of one cfs_rq. */
  datatype Local = Local(remaining: int, throttled: bool)

  /** cfs_bandwidth, the local queues by CPU, and the CPU time the group has executed. */
  datatype Group = Group(
    pool: nat, quota: nat, burst: nat, snap: nat, burstTime: nat, nrBurst: nat, idle: bool,
    locals: seq<Local>, throttledList: seq<nat>, executed: nat)

  /** __refill_cfs_bandwidth_runtime. */
  function Refill(g: Group): Group {
    if g.quota == RUNTIME_INF then g
    else
      var raw := g.pool + g.quota;
      var clipped := Min(raw, g.quota + g.burst);
      g.(pool := clipped, snap := clipped,
         burstTime := if g.snap > raw then g.burstTime + (g.snap - raw) else g.burstTime,
         nrBurst := if g.snap > raw then g.nrBurst + 1 else g.nrBurst)
  }

  /** What __assign_cfs_rq_runtime takes from the pool for a queue that wants to reach target. */
  function Amount(g: Group, i: nat, target: nat): nat
    requires i < |g.locals| && g.locals[i].remaining <= 0
  {
    var wanted := target - g.locals[i].remaining;
    if g.quota == RUNTIME_INF then wanted else Min(g.pool, wanted)
  }

  /** __assign_cfs_rq_runtime. */
  function Assign(g: Group, i: nat, target: nat): Group
    requires i < |g.locals| && g.locals[i].remaining <= 0
  {
    var amount := Amount(g, i, target);
    var l := g.locals[i];
    g.(pool := if g.quota == RUNTIME_INF then g.pool else g.pool - amount,
       idle := if g.quota != RUNTIME_INF && g.pool > 0 then false else g.idle,
       locals := g.locals[i := l.(remaining := l.remaining + amount)])
  }

  /** __account_cfs_rq_runtime: dock the executed time, then extend the runtime if it ran out. */
  function Account(g: Group, i: nat, delta: nat, slice: nat): Group
    requires i < |g.locals|
  {
    var l := g.locals[i].(remaining := g.locals[i].remaining - delta);
    var docked := g.(locals := g.locals[i := l], executed := g.executed + delta);
    if l.remaining > 0 || l.throttled then docked else Assign(docked, i, slice)
  }

  /** throttle_cfs_rq, which its callers reach only with nothing remaining and not yet throttled. */
  function Throttle(g: Group, i: nat): Group
    requires i < |g.locals|
  {
    if g.locals[i].remaining > 0 || g.locals[i].throttled then g
    else
      var a := Assign(g, i, 1);
      if a.locals[i].remaining > 0 then a
      else a.(locals := a.locals[i := a.locals[i].(throttled := true)], throttledList := a.throttledList + [i])
  }

  /** One entry of the list walk in distribute_cfs_runtime. */
  function DistributeOne(g: Group, i: nat): Group
    requires i < |g.locals|
  {
    var l := g.locals[i];
    if !l.throttled then g
    else
      // -runtime_remaining + 1 in u64; a positive remainder would wrap to a huge request
      var wanted: nat := if l.remaining <= 1 then 1 - l.remaining else g.pool;
      var runtime := Min(g.pool, wanted);
      var l' := l.(remaining := l.remaining + runtime);
      if l'.remaining > 0 then
        g.(pool := g.pool - runtime, locals := g.locals[i := l'.(throttled := false)],
           throttledList := Without(g.throttledList, i))
      else g.(pool := g.pool - runtime, locals := g.locals[i := l'])
  }

  /** __return_cfs_rq_runtime of a queue that has just run empty. */
  function Return(g: Group, i: nat): Group
    requires i < |g.locals|
  {
    var l := g.locals[i];
    if l.remaining <= MIN_CFS_RQ_RUNTIME then g
    else
      var slack := l.remaining - MIN_CFS_RQ_RUNTIME;
      g.(pool := if g.quota == RUNTIME_INF then g.pool else g.pool + slack,
         locals := g.locals[i := l.(remaining := MIN_CFS_RQ_RUNTIME)])
  }

  /** The steps that interleave. slice is sched_cfs_bandwidth_slice, a tunable. */
  datatype Action =
    | DoRefill
    | DoAccount(cpu: nat, delta: nat, slice: nat)
    | DoThrottle(cpu: nat)
    | DoDistribute(cpu: nat)
    | DoReturn(cpu: nat)

  function Step(g: Group, a: Action): (g': Group)
  {
    match a
    case DoRefill => Refill(g)
    case DoAccount(i, delta, slice) => if i < |g.locals| then Account(g, i, delta, slice) else g
    case DoThrottle(i) => if i < |g.locals| then Throttle(g, i) else g
    case DoDistribute(i) => if i < |g.locals| then DistributeOne(g, i) else g
    case DoReturn(i) => if i < |g.locals| then Return(g, i) else g
  }

  function RunActions(g: Group, actions: seq<Action>): Group {
    if actions == [] then g else Step(RunActions(g, actions[..|actions| - 1]), actions[|actions| - 1])
  }

  /** Sum of the local runtimes. */
  function LocalSum(locals: seq<Local>): int {
    if locals == [] then 0 else LocalSum(locals[..|locals| - 1]) + locals[|locals| - 1].remaining
  }

  lemma {:induction false} LocalSumUpdate(locals: seq<Local>, i: nat, l: Local)
    requires i < |locals|
    ensures LocalSum(locals[i := l]) == LocalSum(locals) + l.remaining - locals[i].remaining
  {
    var n := |locals| - 1;
    var updated := locals[i := l];
    if i == n {
      assert updated[..n] == locals[..n];
    } else {
      assert updated[..n] == locals[..n][i := l];
      LocalSumUpdate(locals[..n], i, l);
    }
  }

  /** Runtime not yet executed, in the pool and at the queues, plus what has been executed. */
  function Ledger(g: Group): int {
    g.pool + LocalSum(g.locals) + g.executed
  }

  /** What a step adds to the ledger: nothing, or the clipped refill. */
  function Income(g: Group, a: Action): int {
    if a.DoRefill? then Min(g.pool + g.quota, g.quota + g.burst) - g.pool else 0
  }

  /** Every step with a finite quota moves runtime about; only a refill changes the total. */
  lemma StepConserves(g: Group, a: Action)
    requires g.quota != RUNTIME_INF
    ensures Ledger(Step(g, a)) == Ledger(g) + Income(g, a)
    ensures Step(g, a).quota == g.quota && Step(g, a).burst == g.burst && |Step(g, a).locals| == |g.locals|
  {
    if !a.DoRefill? && a.cpu < |g.locals| {
      var i := a.cpu;
      match a {
        case DoAccount(_, delta, _) => AccountConserves(g, i, delta, a.slice);
        case DoThrottle(_) => ThrottleConserves(g, i);
        case DoDistribute(_) => LocalSumUpdate(g.locals, i, DistributeOne(g, i).locals[i]);
        case DoReturn(_) => LocalSumUpdate(g.locals, i, Return(g, i).locals[i]);
      }
    }
  }

  lemma AssignConserves(g: Group, i: nat, target: nat)
    requires i < |g.locals| && g.locals[i].remaining <= 0 && g.quota != RUNTIME_INF
    ensures Ledger(Assign(g, i, target)) == Ledger(g)
  {
    LocalSumUpdate(g.locals, i, Assign(g, i, target).locals[i]);
  }

  lemma AccountConserves(g: Group, i: nat, delta: nat, slice: nat)
    requires i < |g.locals| && g.quota != RUNTIME_INF
    ensures Ledger(Account(g, i, delta, slice)) == Ledger(g)
  {
    var l := g.locals[i].(remaining := g.locals[i].remaining - delta);
    var docked := g.(locals := g.locals[i := l], executed := g.executed + delta);
    LocalSumUpdate(g.locals, i, l);
    if l.remaining <= 0 && !l.throttled {
      AssignConserves(docked, i, slice);
    }
  }

  lemma ThrottleConserves(g: Group, i: nat)
    requires i < |g.locals| && g.quota != RUNTIME_INF
    ensures Ledger(Throttle(g, i)) == Ledger(g)
  {
    if g.locals[i].remaining <= 0 && !g.locals[i].throttled {
      AssignConserves(g, i, 1);
      var a := Assign(g, i, 1);
      LocalSumUpdate(a.locals, i, a.locals[i].(throttled := true));
    }
  }

  /** What every interleaving keeps: a throttled queue has nothing left and is on the list, once. */
  ghost predicate Consistent(g: Group) {
    && (forall i: nat :: i < |g.locals| && g.locals[i].throttled ==> g.locals[i].remaining <= 0)
    && (forall i: nat :: i in g.throttledList <==> i < |g.locals| && g.locals[i].throttled)
    && Distinct(g.throttledList)
  }

  lemma StepKeepsConsistent(g: Group, a: Action)
    requires Consistent(g)
    ensures Consistent(Step(g, a))
  {
    if a.DoRefill? {
      RefillKeepsConsistent(g);
    } else if a.cpu < |g.locals| {
      var i := a.cpu;
      hide *;
      match a {
        case DoAccount(_, delta, slice) => AccountKeepsConsistent(g, i, delta, slice);
        case DoThrottle(_) => ThrottleKeepsConsistent(g, i);
        case DoDistribute(_) => DistributeOneKeepsConsistent(g, i);
        case DoReturn(_) => ReturnKeepsConsistent(g, i);
      }
      StepIs(g, a);
    }
  }

  lemma StepIs(g: Group, a: Action)
    requires !a.DoRefill? && a.cpu < |g.locals|
    ensures Step(g, a) == match a
              case DoAccount(i, delta, slice) => Account(g, i, delta, slice)
              case DoThrottle(i) => Throttle(g, i)
              case DoDistribute(i) => DistributeOne(g, i)
              case DoReturn(i) => Return(g, i)
  {}

  lemma RefillKeepsConsistent(g: Group)
    requires Consistent(g)
    ensures Consistent(Refill(g))
  {}

  lemma AccountKeepsConsistent(g: Group, i: nat, delta: nat, slice: nat)
    requires Consistent(g) && i < |g.locals|
    ensures Consistent(Account(g, i, delta, slice))
  {
    hide Distinct;
  }

  lemma ThrottleKeepsConsistent(g: Group, i: nat)
    requires Consistent(g) && i < |g.locals|
    ensures Consistent(Throttle(g, i))
  {}

  lemma DistributeOneKeepsConsistent(g: Group, i: nat)
    requires Consistent(g) && i < |g.locals|
    ensures Consistent(DistributeOne(g, i))
  {
    WithoutDistinct(g.throttledList, i);
    hide Distinct;
  }

  lemma ReturnKeepsConsistent(g: Group, i: nat)
    requires Consistent(g) && i < |g.locals|
    ensures Consistent(Return(g, i))
  {
    hide Distinct;
  }

  /** Refills among some actions. */
  function Refills(actions: seq<Action>): nat {
    if actions == [] then 0
    else Refills(actions[..|actions| - 1]) + if actions[|actions| - 1].DoRefill? then 1 else 0
  }

  /** The sum of the local runtimes that are negative, as a positive number. */
  function Debt(locals: seq<Local>): nat {
    if locals == [] then 0
    else
      var last := locals[|locals| - 1].remaining;
      Debt(locals[..|locals| - 1]) + if last < 0 then -last else 0
  }

  lemma {:induction false} DebtBoundsSum(locals: seq<Local>)
    ensures -(Debt(locals) as int) <= LocalSum(locals)
  {
    if locals == [] {
    } else {
      DebtBoundsSum(locals[..|locals| - 1]);
    }
  }

  /** Income of a whole run: each refill as it was clipped when it happened. */
  function TotalIncome(g: Group, actions: seq<Action>): int {
    if actions == [] then 0
    else
      var before := actions[..|actions| - 1];
      TotalIncome(g, before) + Income(RunActions(g, before), actions[|actions| - 1])
  }

  /**
   * Bandwidth conservation over every interleaving of the steps of all CPUs: runtime is
   * neither lost nor created except by the clipped refills, and the list stays consistent.
   */
  lemma {:induction false} RunConserves(g: Group, actions: seq<Action>)
    requires g.quota != RUNTIME_INF && Consistent(g)
    ensures var g' := RunActions(g, actions);
            && Consistent(g')
            && g'.quota == g.quota && g'.burst == g.burst && |g'.locals| == |g.locals|
            && Ledger(g') == Ledger(g) + TotalIncome(g, actions)
    ensures TotalIncome(g, actions) <= Refills(actions) * g.quota
  {
    hide Step;
    hide Consistent;
    hide Ledger;
    if actions == [] {
    } else {
      var before, a := actions[..|actions| - 1], actions[|actions| - 1];
      RunConserves(g, before);
      StepConserves(RunActions(g, before), a);
      StepKeepsConsistent(RunActions(g, before), a);
      assert Refills(actions) * g.quota == Refills(before) * g.quota + if a.DoRefill? then g.quota else 0;
    }
  }

  /**
   * The limit bandwidth control promises: over any run with k refills the group executes
   * at most its initial budget, k quotas, and the debt that is still outstanding.
   */
  lemma ExecutionBound(g: Group, actions: seq<Action>)
    requires g.quota != RUNTIME_INF && Consistent(g)
    ensures var g' := RunActions(g, actions);
            g'.executed - g.executed
              <= (g.pool + LocalSum(g.locals)) + Refills(actions) * g.quota + Debt(g'.locals)
  {
    RunConserves(g, actions);
    DebtBoundsSum(RunActions(g, actions).locals);
  }

  /** A throttled queue never has runtime left, in any interleaving. */
  lemma ThrottledHasNothing(g: Group, actions: seq<Action>, i: nat)
    requires g.quota != RUNTIME_INF && Consistent(g)
    ensures var locals := RunActions(g, actions).locals;
            i < |locals| && locals[i].throttled ==> locals[i].remaining <= 0
  {
    RunConserves(g, actions);
  }

  /** One pass of distribute_cfs_runtime over the entries still to visit. */
  function Distribute(g: Group, todo: seq<nat>): Group
    requires forall k: nat :: k < |todo| ==> todo[k] < |g.locals|
    decreases |todo|
  {
    if todo == [] then g
    else
      var g' := DistributeOne(g, todo[0]);
      if g.locals[todo[0]].throttled && g'.pool == 0 then g' else Distribute(g', todo[1..])
  }

  /** The pool pays exactly what the visited queues need, and stops when it is empty. */
  ghost predicate PassOutcome(g: Group, g': Group) {
    && g' == g.(pool := g'.pool, locals := g'.locals, throttledList := g'.throttledList)
    && |g'.locals| == |g.locals|
    && g'.pool <= g.pool
    && Ledger(g') == Ledger(g)
    && (g'.throttledList == [] || g'.pool == 0)
    && forall i: nat :: i < |g.locals| ==>
         if g.locals[i].throttled
         then (if g'.locals[i].throttled then g.locals[i].remaining <= g'.locals[i].remaining <= 0
               else g'.locals[i].remaining == 1)
         else g'.locals[i] == g.locals[i]
  }

  /** One entry: the head of the list either leaves it with one nanosecond or empties the pool. */
  lemma EntryWorks(g: Group)
    requires Consistent(g) && g.throttledList != []
    ensures g.throttledList[0] < |g.locals| && g.locals[g.throttledList[0]].throttled
    ensures var i := g.throttledList[0];
            var g', l, l' := DistributeOne(g, i), g.locals[i], DistributeOne(g, i).locals[i];
            && Consistent(g') && Ledger(g') == Ledger(g) && g'.pool <= g.pool
            && g' == g.(pool := g'.pool, locals := g.locals[i := l'], throttledList := g'.throttledList)
            && (if l'.throttled then l.remaining <= l'.remaining <= 0 && g'.pool == 0
                else l'.remaining == 1 && g'.throttledList == g.throttledList[1..])
  {
    var i := g.throttledList[0];
    assert i in g.throttledList;
    StepKeepsConsistent(g, DoDistribute(i));
    LocalSumUpdate(g.locals, i, DistributeOne(g, i).locals[i]);
    WithoutDistinct(g.throttledList, i);
  }

  lemma ListInRange(g: Group)
    requires Consistent(g)
    ensures forall k: nat :: k < |g.throttledList| ==> g.throttledList[k] < |g.locals|
  {
    assert forall k: nat :: k < |g.throttledList| ==> g.throttledList[k] in g.throttledList;
  }

  /**
   * In isolation, a pass over the throttled list leaves no throttled queue or an empty
   * pool, issues no more than the pool held, gives each queue it unthrottles exactly one
   * nanosecond more than its debt, and touches no other queue.
   */
  lemma {:induction false} PassWorks(g: Group)
    requires Consistent(g)
    ensures forall k: nat :: k < |g.throttledList| ==> g.throttledList[k] < |g.locals|
    ensures Consistent(Distribute(g, g.throttledList))
    ensures PassOutcome(g, Distribute(g, g.throttledList))
    decreases |g.throttledList|
  {
    hide DistributeOne;
    hide Ledger;
    ListInRange(g);
    if g.throttledList == [] {
    } else {
      EntryWorks(g);
      var i := g.throttledList[0];
      var g' := DistributeOne(g, i);
      hide Consistent;
      if g'.pool != 0 {
        PassWorks(g');
      }
    }
  }

  /** struct task_group: its cfs_bandwidth and the bandwidth fields of its cfs_rq on each CPU. */
  class TaskGroup {
    var runtime: nat
    const quota: nat
    const burst: nat
    var runtimeSnap: nat
    var burstTime: nat
    var nrBurst: nat
    var idle: bool
    var nrPeriods: nat
    var nrThrottled: nat
    var throttledList: seq<nat>
    const locals: array<Local>
    ghost var executed: nat

    /** A group with a new limit and empty queues on n CPUs. */
    constructor (quota0: nat, burst0: nat, n: nat)
      ensures Consistent(View()) && quota == quota0 && burst == burst0 && locals.Length == n
      ensures runtime == 0 && forall i :: 0 <= i < n ==> locals[i] == Local(0, false)
    {
      quota, burst := quota0, burst0;
      runtime, runtimeSnap, burstTime, nrBurst := 0, 0, 0, 0;
      idle, nrPeriods, nrThrottled, throttledList := false, 0, 0, [];
      locals := new Local[n](_ => Local(0, false));
    }

    ghost function View(): Group
      reads this, locals
    {
      Group(runtime, quota, burst, runtimeSnap, burstTime, nrBurst, idle, locals[..], throttledList, executed)
    }

    method RefillCfsBandwidthRuntime()
      modifies this
      ensures View() == Refill(old(View()))
      ensures nrPeriods == old(nrPeriods) && nrThrottled == old(nrThrottled)
    {
      if quota == RUNTIME_INF {
        return;
      }
      runtime := runtime + quota;
      var spent := runtimeSnap - runtime;
      if spent > 0 {
        burstTime := burstTime + spent;
        nrBurst := nrBurst + 1;
      }
      runtime := Min(runtime, quota + burst);
      runtimeSnap := runtime;
    }

    /** __assign_cfs_rq_runtime: false when no runtime could be allocated. */
    method AssignCfsRqRuntime(cpu: nat, target: nat) returns (ok: bool)
      requires cpu < locals.Length && locals[cpu].remaining <= 0
      modifies this, locals
      ensures View() == Assign(old(View()), cpu, target) && ok == (locals[cpu].remaining > 0)
      ensures nrPeriods == old(nrPeriods) && nrThrottled == old(nrThrottled)
    {
      var l := locals[cpu];
      var minAmount := target - l.remaining;
      var amount := 0;
      if quota == RUNTIME_INF {
        amount := minAmount;
      } else if runtime > 0 {
        amount := Min(runtime, minAmount);
        runtime := runtime - amount;
        idle := false;
      }
      locals[cpu] := l.(remaining := l.remaining + amount);
      ok := locals[cpu].remaining > 0;
    }

    method AccountCfsRqRuntime(cpu: nat, delta: nat, slice: nat)
      requires cpu < locals.Length
      modifies this, locals
      ensures View() == Account(old(View()), cpu, delta, slice)
    {
      ghost var before := View();
      var l := locals[cpu];
      locals[cpu] := l.(remaining := l.remaining - delta);
      executed := executed + delta;
      assert View() == before.(locals := before.locals[cpu := locals[cpu]], executed := before.executed + delta);
      if locals[cpu].remaining > 0 {
        return;
      }
      if locals[cpu].throttled {
        return;
      }
      var _ := AssignCfsRqRuntime(cpu, slice);
    }

    /** throttle_cfs_rq behind the tests of check_cfs_rq_runtime and check_enqueue_throttle. */
    method CheckCfsRqRuntime(cpu: nat) returns (throttled: bool)
      requires cpu < locals.Length
      modifies this, locals
      ensures View() == Throttle(old(View()), cpu) && throttled == locals[cpu].throttled
    {
      if locals[cpu].remaining > 0 {
        return locals[cpu].throttled;
      }
      if locals[cpu].throttled {
        return true;
      }
      var ok := AssignCfsRqRuntime(cpu, 1);
      if ok {
        return false;
      }
      throttledList := throttledList + [cpu];
      locals[cpu] := locals[cpu].(throttled := true);
      return true;
    }

    method ReturnCfsRqRuntime(cpu: nat)
      requires cpu < locals.Length
      modifies this, locals
      ensures View() == Return(old(View()), cpu)
    {
      var slack := locals[cpu].remaining - MIN_CFS_RQ_RUNTIME;
      if slack <= 0 {
        return;
      }
      if quota != RUNTIME_INF {
        runtime := runtime + slack;
      }
      locals[cpu] := locals[cpu].(remaining := locals[cpu].remaining - slack);
    }

    /** unthrottle_cfs_rq, the bandwidth part. */
    method UnthrottleCfsRq(cpu: nat)
      requires cpu < locals.Length
      modifies this, locals
      ensures View() == old(View()).(locals := old(locals[..])[cpu := old(locals[cpu]).(throttled := false)],
                                     throttledList := Without(old(throttledList), cpu))
      ensures nrPeriods == old(nrPeriods) && nrThrottled == old(nrThrottled)
    {
      locals[cpu] := locals[cpu].(throttled := false);
      throttledList := Without(throttledList, cpu);
    }

    method DistributeEntry(cpu: nat) returns (visited: bool)
      requires cpu < locals.Length
      modifies this, locals
      ensures View() == DistributeOne(old(View()), cpu) && visited == old(locals[cpu].throttled)
      ensures nrPeriods == old(nrPeriods) && nrThrottled == old(nrThrottled)
    {
      var l := locals[cpu];
      if !l.throttled {
        return false;
      }
      var wanted := if l.remaining <= 1 then 1 - l.remaining else runtime;
      var amount := Min(runtime, wanted);
      runtime := runtime - amount;
      locals[cpu] := l.(remaining := l.remaining + amount);
      if locals[cpu].remaining > 0 {
        UnthrottleCfsRq(cpu);
      }
      visited := true;
    }

    /** The walk over the throttled list, run in isolation. */
    method DistributeCfsRuntime()
      requires Consistent(View())
      modifies this, locals
      ensures forall k: nat :: k < |old(throttledList)| ==> old(throttledList)[k] < locals.Length
      ensures View() == Distribute(old(View()), old(throttledList))
      ensures nrPeriods == old(nrPeriods) && nrThrottled == old(nrThrottled)
    {
      hide DistributeOne;
      ghost var g := View();
      ListInRange(g);
      hide Consistent;
      var todo := throttledList;
      var k := 0;
      var remaining := 1;
      while k < |todo| && remaining != 0
        invariant 0 <= k <= |todo|
        invariant forall j: nat :: j < |todo| ==> todo[j] < locals.Length
        invariant remaining != 0 ==> Distribute(View(), todo[k..]) == Distribute(g, todo)
        invariant remaining == 0 ==> View() == Distribute(g, todo)
        invariant nrPeriods == old(nrPeriods) && nrThrottled == old(nrThrottled)
        decreases |todo| - k
      {
        assert todo[k..][0] == todo[k] && todo[k..][1..] == todo[k + 1..];
        var visited := DistributeEntry(todo[k]);
        if visited {
          remaining := runtime;
        }
        k := k + 1;
      }
    }

    /** do_sched_cfs_period_timer, run in isolation: true when the timer is to be stopped. */
    method DoSchedCfsPeriodTimer(overrun: nat) returns (deactivate: bool)
      requires Consistent(View())
      modifies this, locals
      ensures Consistent(View())
      ensures deactivate == (quota == RUNTIME_INF || (old(idle) && old(throttledList) == []))
      ensures !deactivate ==> throttledList == [] || runtime == 0
      ensures Ledger(View()) == Ledger(Refill(old(View())))
      ensures !deactivate ==> idle == (old(throttledList) == [])
      ensures quota != RUNTIME_INF ==> nrPeriods == old(nrPeriods) + overrun
      ensures nrThrottled == old(nrThrottled) + if quota != RUNTIME_INF && old(throttledList) != [] then overrun else 0
    {
      if quota == RUNTIME_INF {
        return true;
      }
      var throttled := throttledList != [];
      nrPeriods := nrPeriods + overrun;
      RefillCfsBandwidthRuntime();
      if idle && !throttled {
        return true;
      }
      if !throttled {
        idle := true;
        return false;
      }
      nrThrottled := nrThrottled + overrun;
      while throttled && runtime > 0
        invariant Consistent(View()) && throttled == (throttledList != [])
        invariant Ledger(View()) == Ledger(Refill(old(View())))
        invariant nrPeriods == old(nrPeriods) + overrun && nrThrottled == old(nrThrottled) + overrun
        decreases if throttled && runtime > 0 then 1 else 0
      {
        PassWorks(View());
        DistributeCfsRuntime();
        throttled := throttledList != [];
      }
      idle := false;
      return false;
    }
  }
}
